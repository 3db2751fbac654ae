/**
 * Whether a new session takes the whole of the first snapshot: when the first reconciliation, at whatever number and
 * after whatever command, has nothing to add.
 */
module SeededBaseline {
  import opened Wrappers
  import opened GraphTypes
  import opened SessionSummary
  import opened Reconciliation
  import opened Agreement
  import opened Sessions

  /** The bindings of a map's entries, all of one moment. */
  function Bound<V>(live: map<string, V>, at: SequenceNo): map<string, Binding<V>> {
    map name | name in live :: Binding(name, live[name], at)
  }

  lemma {:induction false} EntriesSeeded(s: Summary, entries: seq<(string, Variable)>, at: SequenceNo)
    requires s.variables == map[]
    ensures UpsertEntries(s, entries, at)
         == s.(variables := Bound(LastWins(entries), at),
               lastSequenceNo := UpsertEntries(s, entries, at).lastSequenceNo)
  {
    if entries != [] {
      EntriesSeeded(s, entries[..|entries| - 1], at);
    }
  }

  lemma {:induction false} AliasesSeeded(s: Summary, aliases: seq<ShellBody>, at: SequenceNo)
    requires s.aliases == map[]
    ensures UpsertAliases(s, aliases, at)
         == s.(aliases := Bound(LastWins(BodyEntries(aliases)), at),
               lastSequenceNo := UpsertAliases(s, aliases, at).lastSequenceNo)
  {
    if aliases != [] {
      AliasesSeeded(s, aliases[..|aliases| - 1], at);
      assert BodyEntries(aliases)[..|aliases| - 1] == BodyEntries(aliases[..|aliases| - 1]);
    }
  }

  lemma {:induction false} FunctionsSeeded(s: Summary, functions: seq<ShellBody>, at: SequenceNo)
    requires s.functions == map[]
    ensures UpsertFunctions(s, functions, at)
         == s.(functions := Bound(LastWins(BodyEntries(functions)), at),
               lastSequenceNo := UpsertFunctions(s, functions, at).lastSequenceNo)
  {
    if functions != [] {
      FunctionsSeeded(s, functions[..|functions| - 1], at);
      assert BodyEntries(functions)[..|functions| - 1] == BodyEntries(functions[..|functions| - 1]);
    }
  }

  /** What is known of the persisted variables; where a name is listed twice the last entry stands. */
  function KnownVariables(before: Snapshot, previous: Option<PreviousCommand>,
                          can: Capabilities): map<string, Variable> {
    match before.variableKnowledge
    case Complete => LiveVariables(before, previous, can)
    case ExportedOnly =>
      if can.exportedEnvironment then LastWins(ExportedEntries(before.variables, previous)) else map[]
    case Unknown => map[]
  }

  function SeededBodies(bodies: seq<ShellBody>, knowledge: Knowledge, persisted: bool): map<string, Binding<string>> {
    if persisted && knowledge == Complete then Bound(LastWins(BodyEntries(bodies)), 0) else map[]
  }

  /** What a new session knows after seeding, component by component. */
  lemma SeededSummary(before: Snapshot, can: Capabilities)
    ensures var (s, stops) := (Seed(SessionSummary.EMPTY, before, 0, can), StopsEarly(before, can));
            && s.cwd == (if can.cwd then Some(Cwd(before.cwd, 0, RuntimeSnapshot)) else None)
            && s.variables == Bound(KnownVariables(before, None, can), 0)
            && s.aliases == (if stops then map[] else SeededBodies(before.aliases, before.aliasKnowledge, can.aliases))
            && s.functions == (if stops then map[]
                               else SeededBodies(before.functions, before.functionKnowledge, can.functions))
            && s.positionals == (if !stops && can.positionals && before.positionalKnowledge == Complete
                                 then Some(Positionals(before.positionals, 0)) else None)
  {
    var c := SeedCwd(SessionSummary.EMPTY, before, 0, can);
    assert c == c.(cwd := if can.cwd then Some(Cwd(before.cwd, 0, RuntimeSnapshot)) else None);
    if !StopsEarly(before, can) {
      var v := SeedVariables(c, before, 0, can);
      VariablesSeeded(c, before, can);
      BodiesSeeded(v, before, can);
    }
  }

  lemma VariablesSeeded(s: Summary, before: Snapshot, can: Capabilities)
    requires s.variables == map[] && !StopsEarly(before, can)
    ensures var r := SeedVariables(s, before, 0, can);
            r == s.(variables := Bound(KnownVariables(before, None, can), 0), lastSequenceNo := r.lastSequenceNo)
  {
    EntriesSeeded(s, PersistedEntries(before.variables, None, can), 0);
    EntriesSeeded(s, ExportedEntries(before.variables, None), 0);
  }

  lemma BodiesSeeded(s: Summary, before: Snapshot, can: Capabilities)
    requires s.aliases == map[] && s.functions == map[]
    ensures var r := SeedBodies(s, before, 0, can);
            r == s.(aliases := SeededBodies(before.aliases, before.aliasKnowledge, can.aliases),
                    functions := SeededBodies(before.functions, before.functionKnowledge, can.functions),
                    lastSequenceNo := r.lastSequenceNo)
  {
    AliasesSeeded(s, before.aliases, 0);
    FunctionsSeeded(if can.aliases && before.aliasKnowledge == Complete then UpsertAliases(s, before.aliases, 0) else s,
                    before.functions, 0);
  }

  // What the previous command does to what is observed.

  function Reobserved(name: string, v: Variable, previous: Option<PreviousCommand>): Variable {
    Observed(ShellVariable(name, v.value, v.exported), previous)
  }

  function AllReobserved(known: map<string, Variable>, previous: Option<PreviousCommand>): map<string, Variable> {
    map name | name in known :: Reobserved(name, known[name], previous)
  }

  lemma {:induction false} PersistedReobserved(variables: seq<ShellVariable>, previous: Option<PreviousCommand>,
                                               can: Capabilities)
    ensures LastWins(PersistedEntries(variables, previous, can))
         == AllReobserved(LastWins(PersistedEntries(variables, None, can)), previous)
  {
    if variables != [] {
      var n := |variables| - 1;
      PersistedReobserved(variables[..n], previous, can);
      EntryReobserved(PersistedEntries(variables[..n], previous, can), PersistedEntries(variables[..n], None, can),
                      variables[n], previous, can.PersistsVariable(variables[n].exported));
    }
  }

  lemma {:induction false} ExportedReobserved(variables: seq<ShellVariable>, previous: Option<PreviousCommand>)
    ensures LastWins(ExportedEntries(variables, previous))
         == AllReobserved(LastWins(ExportedEntries(variables, None)), previous)
  {
    if variables != [] {
      var n := |variables| - 1;
      ExportedReobserved(variables[..n], previous);
      EntryReobserved(ExportedEntries(variables[..n], previous), ExportedEntries(variables[..n], None),
                      variables[n], previous, variables[n].exported);
    }
  }

  function Entry(v: ShellVariable, previous: Option<PreviousCommand>, taken: bool): seq<(string, Variable)> {
    if taken then [(v.name, Observed(v, previous))] else []
  }

  lemma UpdateReobserved(known: map<string, Variable>, v: ShellVariable, previous: Option<PreviousCommand>)
    ensures AllReobserved(known[v.name := Observed(v, None)], previous)
         == AllReobserved(known, previous)[v.name := Observed(v, previous)]
  {
    assert Reobserved(v.name, Observed(v, None), previous) == Observed(v, previous);
  }

  lemma EntryReobserved(after: seq<(string, Variable)>, before: seq<(string, Variable)>, v: ShellVariable,
                        previous: Option<PreviousCommand>, taken: bool)
    requires LastWins(after) == AllReobserved(LastWins(before), previous)
    ensures LastWins(after + Entry(v, previous, taken))
         == AllReobserved(LastWins(before + Entry(v, None, taken)), previous)
  {
    if taken {
      UpdateReobserved(LastWins(before), v, previous);
      assert (after + Entry(v, previous, taken))[..|after|] == after;
      assert (before + Entry(v, None, taken))[..|before|] == before;
    } else {
      assert after + [] == after && before + [] == before;
    }
  }

  lemma KnownReobserved(before: Snapshot, previous: Option<PreviousCommand>, can: Capabilities)
    ensures KnownVariables(before, previous, can) == AllReobserved(KnownVariables(before, None, can), previous)
  {
    PersistedReobserved(before.variables, previous, can);
    ExportedReobserved(before.variables, previous);
  }

  /** The previous command produced, by substitution, a known and persisted variable that the shell shows as a text. */
  predicate Mints(before: Snapshot, previous: Option<PreviousCommand>, can: Capabilities) {
    previous.Some? && var known := KnownVariables(before, None, can);
    exists name | name in known :: name in previous.value.mints && known[name].value.ExactScalar?
  }

  /** That is the one way in which a variable comes to be observed differently. */
  lemma MintsExactly(before: Snapshot, previous: Option<PreviousCommand>, can: Capabilities)
    ensures KnownVariables(before, previous, can) == KnownVariables(before, None, can)
            <==> !Mints(before, previous, can)
  {
    var known, after := KnownVariables(before, None, can), KnownVariables(before, previous, can);
    KnownReobserved(before, previous, can);
    forall name | name in known
      ensures after[name] == known[name]
              <==> !(previous.Some? && name in previous.value.mints && known[name].value.ExactScalar?)
    {
    }
  }

  // What the seeded summary lacks.

  lemma AllBoundExactly<V(!new)>(held: map<string, V>, live: map<string, V>, entries: seq<(string, V)>)
    requires held.Keys == live.Keys
    requires forall name, v :: (name, v) in entries <==> name in live && live[name] == v
    ensures AllHeld(Bound(held, 0), entries) <==> held == live
  {
    forall i | 0 <= i < |entries| ensures entries[i].0 in live && live[entries[i].0] == entries[i].1 {
      assert (entries[i].0, entries[i].1) in entries;
    }
    if AllHeld(Bound(held, 0), entries) {
      forall name | name in live ensures held[name] == live[name] {
        var i :| 0 <= i < |entries| && entries[i] == (name, live[name]);
        assert Holds(Bound(held, 0), entries[i].0, entries[i].1);
      }
    }
  }

  /** Of bindings to the same names, nothing is mismatched exactly when the contents are the same. */
  lemma BoundSettlesExactly<V(!new)>(held: map<string, V>, live: map<string, V>, at: SequenceNo)
    requires held.Keys == live.Keys
    ensures Mismatched(Bound(held, 0), InNameOrder(live), at) == [] <==> held == live
  {
    NothingMismatched(Bound(held, 0), InNameOrder(live), at);
    AllBoundExactly(held, live, InNameOrder(live));
  }

  lemma NoneIsStale<V(!new)>(held: map<string, V>, live: map<string, V>, removable: V -> bool)
    requires held.Keys == live.Keys
    ensures AllStale(Bound(held, 0), live, removable) == []
  {
    var stale := AllStale(Bound(held, 0), live, removable);
    assert stale == [] || stale[0] in stale;
    StaleMembers(Bound(held, 0), live, removable, NamesInOrder(Bound(held, 0).Keys));
  }

  /** Of a list, all is held exactly when there is no contradiction and what is held are its last entries. */
  lemma ListHeldExactly<V(!new)>(held: map<string, V>, entries: seq<(string, V)>, at: SequenceNo)
    requires held.Keys == LastWins(entries).Keys
    ensures Mismatched(Bound(held, 0), entries, at) == [] <==> Consistent(entries) && held == LastWins(entries)
  {
    NothingMismatched(Bound(held, 0), entries, at);
    LastWinsMembers(entries);
    if AllHeld(Bound(held, 0), entries) {
      forall name | name in held ensures held[name] == LastWins(entries)[name] {
        assert (name, LastWins(entries)[name]) in entries;
      }
    }
    if Consistent(entries) && held == LastWins(entries) {
      forall i | 0 <= i < |entries| ensures Holds(Bound(held, 0), entries[i].0, entries[i].1) {
        var j :| 0 <= j < |entries| && entries[j] == (entries[i].0, held[entries[i].0]);
      }
    }
  }

  lemma VariablesTaken(s: Summary, before: Snapshot, at: SequenceNo, previous: Option<PreviousCommand>,
                       can: Capabilities)
    requires s.variables == Bound(KnownVariables(before, None, can), 0)
    ensures ReconcileVariables(s, before, at, previous, can) == ([], [])
            <==> ContradictionFree(before, previous, can) && !Mints(before, previous, can)
  {
    var held := KnownVariables(before, None, can);
    KnownReobserved(before, previous, can);
    MintsExactly(before, previous, can);
    if before.variableKnowledge == Complete {
      BoundSettlesExactly(held, LiveVariables(before, previous, can), at);
      NoneIsStale(held, LiveVariables(before, previous, can), Persisted(can));
      NothingPersisted(before, can);
    } else if before.variableKnowledge == ExportedOnly && can.exportedEnvironment {
      ListHeldExactly(held, ExportedEntries(before.variables, previous), at);
    }
  }

  lemma NothingPersisted(before: Snapshot, can: Capabilities)
    requires before.variableKnowledge == Complete
    ensures !can.PersistsSomeVariables() ==> KnownVariables(before, None, can) == map[]
  {
    PersistedEntriesMembers(before.variables, None, can);
    LastWinsMembers(PersistedEntries(before.variables, None, can));
  }

  /** Aliases or functions that are persisted, known and there. */
  predicate Offered(bodies: seq<ShellBody>, knowledge: Knowledge, persisted: bool) {
    persisted && knowledge == Complete && bodies != []
  }

  lemma BodiesTaken(bodies: seq<ShellBody>, knowledge: Knowledge, persisted: bool, at: SequenceNo)
    ensures ReconcileBodies(SeededBodies(bodies, knowledge, persisted), bodies, knowledge, persisted, at) == ([], [])
    ensures ReconcileBodies(map[], bodies, knowledge, persisted, at).0 != [] <==> Offered(bodies, knowledge, persisted)
  {
    var live := LastWins(BodyEntries(bodies));
    BoundSettlesExactly(live, live, at);
    NoneIsStale(live, live, Anything());
    NothingMismatched(map[], InNameOrder(live), at);
    LastWinsMembers(BodyEntries(bodies));
    if bodies != [] {
      var name := BodyEntries(bodies)[0].0;
      assert (name, live[name]) in InNameOrder(live);
    }
  }

  /** There is something that seeding leaves out when it stops early. */
  predicate Skips(before: Snapshot, can: Capabilities) {
    || Offered(before.aliases, before.aliasKnowledge, can.aliases)
    || Offered(before.functions, before.functionKnowledge, can.functions)
    || (can.positionals && before.positionalKnowledge == Complete)
  }

  /**
   * Seeding takes the whole first snapshot, so that reconciling with it at any number has nothing to add, exactly when
   * a partial snapshot does not contradict itself, the previous command produced none of the variables, and an early
   * stop skips nothing.
   */
  lemma SeedIsWholeExactly(before: Snapshot, at: SequenceNo, previous: Option<PreviousCommand>, can: Capabilities)
    ensures Reconcile(Seed(SessionSummary.EMPTY, before, 0, can), before, at, previous, can) == NO_CHANGE
            <==> && ContradictionFree(before, previous, can) && !Mints(before, previous, can)
                 && !(StopsEarly(before, can) && Skips(before, can))
  {
    var s := Seed(SessionSummary.EMPTY, before, 0, can);
    SeededSummary(before, can);
    VariablesTaken(s, before, at, previous, can);
    BodiesTaken(before.aliases, before.aliasKnowledge, can.aliases, at);
    BodiesTaken(before.functions, before.functionKnowledge, can.functions, at);
  }

  /** What an early stop skips, reconciling at any number adds. */
  lemma SkippedIsMadeUpFor(before: Snapshot, at: SequenceNo, previous: Option<PreviousCommand>, can: Capabilities)
    requires StopsEarly(before, can)
    ensures var delta := Reconcile(Seed(SessionSummary.EMPTY, before, 0, can), before, at, previous, can);
            && (delta.upsertAliases != [] <==> Offered(before.aliases, before.aliasKnowledge, can.aliases))
            && (delta.upsertFunctions != [] <==> Offered(before.functions, before.functionKnowledge, can.functions))
            && (delta.positionalsAfter.Some? <==> can.positionals && before.positionalKnowledge == Complete)
  {
    SeededSummary(before, can);
    BodiesTaken(before.aliases, before.aliasKnowledge, can.aliases, at);
    BodiesTaken(before.functions, before.functionKnowledge, can.functions, at);
  }

  // A snapshot that seeding does not take whole.

  /** A partial environment, and an alias. */
  const WITH_ALIAS: Snapshot :=
    Snapshot("/", [], ExportedOnly, [], Unknown, [ShellBody("a", "b")], Complete, [], Unknown)

  const ALIASES_ONLY: Capabilities := Capabilities(false, false, false, true, false, false)

  /** Without the environment being persisted the alias is left out. */
  lemma AliasIsSkipped(at: SequenceNo, previous: Option<PreviousCommand>)
    ensures StopsEarly(WITH_ALIAS, ALIASES_ONLY)
    ensures Reconcile(Seed(SessionSummary.EMPTY, WITH_ALIAS, 0, ALIASES_ONLY), WITH_ALIAS, at, previous, ALIASES_ONLY)
         != NO_CHANGE
  {
    SeedIsWholeExactly(WITH_ALIAS, at, previous, ALIASES_ONLY);
  }

  const ONE_EXPORTED: Snapshot :=
    Snapshot("/", [ShellVariable("A", ExactScalar("1"), true)], ExportedOnly, [], Unknown, [], Unknown, [], Unknown)

  const EXPORTED_ONLY: Capabilities := Capabilities(false, false, true, false, false, false)

  /** A variable that the previous command produced is observed anew; after any other command it is not. */
  lemma MintedIsReobserved(at: SequenceNo, command: PreviousCommand)
    ensures var seeded := Seed(SessionSummary.EMPTY, ONE_EXPORTED, 0, EXPORTED_ONLY);
            Reconcile(seeded, ONE_EXPORTED, at, Some(command), EXPORTED_ONLY) == NO_CHANGE <==> "A" !in command.mints
  {
    var variables := ONE_EXPORTED.variables;
    assert variables[..0] == [];
    assert ExportedEntries(variables, None) == [("A", Variable(ExactScalar("1"), true))];
    assert LastWins([("A", Variable(ExactScalar("1"), true))][..0]) == map[];
    assert KnownVariables(ONE_EXPORTED, None, EXPORTED_ONLY) == map["A" := Variable(ExactScalar("1"), true)];
    SeedIsWholeExactly(ONE_EXPORTED, at, Some(command), EXPORTED_ONLY);
    assert |ExportedEntries(variables, Some(command))| == 1;
  }
}
