/** Comparing the remembered shell state with an observed one, and the changes that make them agree. */
module Reconciliation {
  import opened Wrappers
  import opened Ordered
  import Text
  import opened GraphTypes
  import opened SessionSummary
  import opened Mutations

  datatype Knowledge = Complete | ExportedOnly | Unknown

  datatype ShellVariable = ShellVariable(name: string, value: Value, exported: bool)

  /** An alias or a function. */
  datatype ShellBody = ShellBody(name: string, body: string)

  datatype Snapshot = Snapshot(
    cwd: string,
    variables: seq<ShellVariable>, variableKnowledge: Knowledge,
    positionals: seq<Value>, positionalKnowledge: Knowledge,
    aliases: seq<ShellBody>, aliasKnowledge: Knowledge,
    functions: seq<ShellBody>, functionKnowledge: Knowledge)

  /**
   * What the parser says about the previous command; one that does not parse may change the directory, and mints
   * nothing.
   */
  datatype PreviousCommand = PreviousCommand(mayUpdateCwd: bool, mints: set<string>)

  datatype Delta = Delta(
    cwdAfter: Option<string>,
    upsertVariables: seq<Binding<Variable>>, unsetVariables: seq<string>,
    positionalsAfter: Option<seq<Value>>, positionalsUnknownAfter: bool,
    upsertAliases: seq<Binding<string>>, unsetAliases: seq<string>,
    upsertFunctions: seq<Binding<string>>, unsetFunctions: seq<string>)

  const NO_CHANGE: Delta := Delta(None, [], [], None, false, [], [], [], [])

  predicate LooksLikePath(text: string) {
    "/" <= text || "./" <= text || "../" <= text || "~/" <= text
  }

  /** An exact value that the previous command minted by substitution counts as produced at run time. */
  function Observed(v: ShellVariable, previous: Option<PreviousCommand>): Variable {
    Variable(if v.value.ExactScalar? && previous.Some? && v.name in previous.value.mints
             then RuntimeProduced(v.value.text, if LooksLikePath(v.value.text) then PathKind else ScalarKind)
             else v.value, v.exported)
  }

  /** Collecting into a map: of several entries for one name the last stays. */
  function LastWins<V>(entries: seq<(string, V)>): map<string, V> {
    if entries == [] then map[]
    else LastWins(entries[..|entries| - 1])[entries[|entries| - 1].0 := entries[|entries| - 1].1]
  }

  /** The entries that the runtime persists. */
  function PersistedEntries(variables: seq<ShellVariable>, previous: Option<PreviousCommand>, can: Capabilities)
    : seq<(string, Variable)>
  {
    if variables == [] then []
    else
      var v := variables[|variables| - 1];
      PersistedEntries(variables[..|variables| - 1], previous, can)
      + (if can.PersistsVariable(v.exported) then [(v.name, Observed(v, previous))] else [])
  }

  function ExportedEntries(variables: seq<ShellVariable>, previous: Option<PreviousCommand>): seq<(string, Variable)> {
    if variables == [] then []
    else
      var v := variables[|variables| - 1];
      ExportedEntries(variables[..|variables| - 1], previous)
      + (if v.exported then [(v.name, Observed(v, previous))] else [])
  }

  function BodyEntries(bodies: seq<ShellBody>): seq<(string, string)> {
    seq(|bodies|, i requires 0 <= i < |bodies| => (bodies[i].name, bodies[i].body))
  }

  predicate Holds<V(==)>(held: map<string, Binding<V>>, name: string, content: V) {
    name in held && held[name].content == content
  }

  /** In entry order, a binding for each entry that is not already held. */
  function Mismatched<V(==)>(held: map<string, Binding<V>>, entries: seq<(string, V)>,
                        at: SequenceNo): seq<Binding<V>> {
    if entries == [] then []
    else
      var (name, content) := entries[|entries| - 1];
      Mismatched(held, entries[..|entries| - 1], at)
      + (if Holds(held, name, content) then [] else [Binding(name, content, at)])
  }

  function NamesInOrder(names: set<string>): (r: seq<string>)
    ensures forall i, j | 0 <= i < j < |r| :: r[i] != r[j]
    ensures forall name :: name in r <==> name in names
  {
    StringOrder();
    var r := Ascending(names, Text.StrLess);
    assert forall i, j | 0 <= i < j < |r| :: Text.StrLess(r[i], r[j]);
    r
  }

  /** In name order, the entries of a map. */
  function InNameOrder<V(!new)>(live: map<string, V>): (r: seq<(string, V)>)
    ensures forall i, j | 0 <= i < j < |r| :: r[i].0 != r[j].0
    ensures forall name, v :: (name, v) in r <==> name in live && live[name] == v
  {
    var names := NamesInOrder(live.Keys);
    assert forall i | 0 <= i < |names| :: names[i] in names;
    var r := seq(|names|, i requires 0 <= i < |names| => (names[i], live[names[i]]));
    assert forall i | 0 <= i < |names| :: r[i] == (names[i], live[names[i]]);
    r
  }

  /** Of `names`, in order, those held with removable content that are not live. */
  function Stale<V>(held: map<string, Binding<V>>, live: map<string, V>, removable: V -> bool, names: seq<string>)
    : seq<string>
  {
    if names == [] then []
    else
      var name := names[|names| - 1];
      Stale(held, live, removable, names[..|names| - 1])
      + (if name in held && removable(held[name].content) && name !in live then [name] else [])
  }

  function AllStale<V>(held: map<string, Binding<V>>, live: map<string, V>, removable: V -> bool): seq<string> {
    Stale(held, live, removable, NamesInOrder(held.Keys))
  }

  predicate ShouldReconcileCwd(s: Summary, path: string, at: SequenceNo, previous: Option<PreviousCommand>) {
    if s.cwd.None? then true
    else if s.cwd.value.path == path then false
    else if previous.None? then true
    else if s.cwd.value.source != StaticAnalysis then true
    else if s.cwd.value.observedAt == at then false
    else previous.value.mayUpdateCwd
  }

  function Anything<V>(): V -> bool { (_: V) => true }

  function Persisted(can: Capabilities): Variable -> bool { (v: Variable) => can.PersistsVariable(v.exported) }

  function LiveVariables(before: Snapshot, previous: Option<PreviousCommand>,
                         can: Capabilities): map<string, Variable> {
    LastWins(PersistedEntries(before.variables, previous, can))
  }

  function ReconcileCwd(s: Summary, before: Snapshot, at: SequenceNo, previous: Option<PreviousCommand>,
                        can: Capabilities): Option<string> {
    if can.cwd && ShouldReconcileCwd(s, before.cwd, at, previous) then Some(before.cwd) else None
  }

  function ReconcileVariables(s: Summary, before: Snapshot, at: SequenceNo, previous: Option<PreviousCommand>,
                              can: Capabilities): (seq<Binding<Variable>>, seq<string>) {
    if !can.PersistsSomeVariables() then ([], [])
    else match before.variableKnowledge
      case Complete =>
        var live := LiveVariables(before, previous, can);
        (Mismatched(s.variables, InNameOrder(live), at), AllStale(s.variables, live, Persisted(can)))
      case ExportedOnly =>
        (if can.exportedEnvironment then Mismatched(s.variables, ExportedEntries(before.variables, previous), at) else [], [])
      case Unknown => ([], [])
  }

  function ReconcilePositionals(s: Summary, before: Snapshot, can: Capabilities): Option<seq<Value>> {
    if can.positionals && before.positionalKnowledge == Complete
       && !(s.positionals.Some? && s.positionals.value.values == before.positionals)
    then Some(before.positionals)
    else None
  }

  function ReconcileBodies(held: map<string, Binding<string>>, bodies: seq<ShellBody>, knowledge: Knowledge,
                           persisted: bool, at: SequenceNo): (seq<Binding<string>>, seq<string>) {
    if !persisted || knowledge != Complete then ([], [])
    else
      var live := LastWins(BodyEntries(bodies));
      (Mismatched(held, InNameOrder(live), at), AllStale(held, live, Anything()))
  }

  function Reconcile(s: Summary, before: Snapshot, at: SequenceNo, previous: Option<PreviousCommand>,
                     can: Capabilities): Delta {
    var (upsertVariables, unsetVariables) := ReconcileVariables(s, before, at, previous, can);
    var (upsertAliases, unsetAliases) := ReconcileBodies(s.aliases, before.aliases, before.aliasKnowledge, can.aliases, at);
    var (upsertFunctions, unsetFunctions) :=
      ReconcileBodies(s.functions, before.functions, before.functionKnowledge, can.functions, at);
    Delta(ReconcileCwd(s, before, at, previous, can), upsertVariables, unsetVariables,
          ReconcilePositionals(s, before, can), false, upsertAliases, unsetAliases, upsertFunctions, unsetFunctions)
  }

  // From a delta to staged mutations, in the order in which they are committed.

  function CwdMutation(path: Option<string>, at: SequenceNo): seq<Mutation> {
    if path.Some? then [SetCurrentWorkingDirectory(path.value, at, RuntimeSnapshot)] else []
  }

  function PositionalMutation(values: Option<seq<Value>>, unknown: bool, at: SequenceNo): seq<Mutation> {
    if values.Some? then [SetPositionalParameters(values.value, at)]
    else if unknown then [ForgetPositionalParameters(at)]
    else []
  }

  function Restamped<V>(b: Binding<V>, at: SequenceNo): Binding<V> { b.(observedAt := at) }

  function VariableUpserts(bs: seq<Binding<Variable>>, at: SequenceNo): seq<Mutation> {
    seq(|bs|, i requires 0 <= i < |bs| => UpsertVariableBinding(Restamped(bs[i], at)))
  }

  function VariableUnsets(names: seq<string>, at: SequenceNo): seq<Mutation> {
    seq(|names|, i requires 0 <= i < |names| => UnsetVariableBinding(names[i], at))
  }

  function AliasUpserts(bs: seq<Binding<string>>, at: SequenceNo): seq<Mutation> {
    seq(|bs|, i requires 0 <= i < |bs| => UpsertAliasBinding(Restamped(bs[i], at)))
  }

  function AliasUnsets(names: seq<string>, at: SequenceNo): seq<Mutation> {
    seq(|names|, i requires 0 <= i < |names| => UnsetAliasBinding(names[i], at))
  }

  function FunctionUpserts(bs: seq<Binding<string>>, at: SequenceNo): seq<Mutation> {
    seq(|bs|, i requires 0 <= i < |bs| => UpsertFunctionBinding(Restamped(bs[i], at)))
  }

  function FunctionUnsets(names: seq<string>, at: SequenceNo): seq<Mutation> {
    seq(|names|, i requires 0 <= i < |names| => UnsetFunctionBinding(names[i], at))
  }

  function SummaryMutations(delta: Delta, at: SequenceNo): seq<Mutation> {
    CwdMutation(delta.cwdAfter, at)
    + PositionalMutation(delta.positionalsAfter, delta.positionalsUnknownAfter, at)
    + VariableUpserts(delta.upsertVariables, at) + VariableUnsets(delta.unsetVariables, at)
    + AliasUpserts(delta.upsertAliases, at) + AliasUnsets(delta.unsetAliases, at)
    + FunctionUpserts(delta.upsertFunctions, at) + FunctionUnsets(delta.unsetFunctions, at)
  }

  function PendingMutations(delta: Delta, at: SequenceNo, syntheticAnchor: Option<NodeId>): seq<Mutation> {
    (if syntheticAnchor.Some? then [AddShellStateReconciliationAnchor(syntheticAnchor.value, at)] else [])
    + SummaryMutations(delta, at)
  }

  // The loops, proved against the functions.

  lemma MismatchedNext<V>(held: map<string, Binding<V>>, entries: seq<(string, V)>, i: nat, at: SequenceNo)
    requires i < |entries|
    ensures Mismatched(held, entries[..i + 1], at) == Mismatched(held, entries[..i], at)
            + (if Holds(held, entries[i].0, entries[i].1) then [] else [Binding(entries[i].0, entries[i].1, at)])
  {
    assert entries[..i + 1][..i] == entries[..i];
  }

  lemma StaleNext<V>(held: map<string, Binding<V>>, live: map<string, V>, removable: V -> bool, names: seq<string>,
                     i: nat)
    requires i < |names|
    ensures Stale(held, live, removable, names[..i + 1]) == Stale(held, live, removable, names[..i])
            + (if names[i] in held && removable(held[names[i]].content) && names[i] !in live then [names[i]] else [])
  {
    assert names[..i + 1][..i] == names[..i];
  }

  /** One pass over what is live. */
  method UpsertLive<V(!new,==)>(held: map<string, Binding<V>>, live: map<string, V>, at: SequenceNo)
    returns (upserts: seq<Binding<V>>)
    ensures upserts == Mismatched(held, InNameOrder(live), at)
  {
    var entries := InNameOrder(live);
    upserts := [];
    for i := 0 to |entries|
      invariant upserts == Mismatched(held, entries[..i], at)
    {
      MismatchedNext(held, entries, i, at);
      if !Holds(held, entries[i].0, entries[i].1) {
        upserts := upserts + [Binding(entries[i].0, entries[i].1, at)];
      }
    }
    assert entries[..|entries|] == entries;
  }

  /** One pass over what is held. */
  method UnsetStale<V>(held: map<string, Binding<V>>, live: map<string, V>, removable: V -> bool)
    returns (unsets: seq<string>)
    ensures unsets == AllStale(held, live, removable)
  {
    var names := NamesInOrder(held.Keys);
    unsets := [];
    for i := 0 to |names|
      invariant unsets == Stale(held, live, removable, names[..i])
    {
      StaleNext(held, live, removable, names, i);
      if names[i] in held && removable(held[names[i]].content) && names[i] !in live {
        unsets := unsets + [names[i]];
      }
    }
    assert names[..|names|] == names;
  }

  lemma ExportedNext(held: map<string, Binding<Variable>>, variables: seq<ShellVariable>, i: nat, at: SequenceNo,
                     previous: Option<PreviousCommand>)
    requires i < |variables|
    ensures Mismatched(held, ExportedEntries(variables[..i + 1], previous), at)
         == Mismatched(held, ExportedEntries(variables[..i], previous), at)
            + (if variables[i].exported && !Holds(held, variables[i].name, Observed(variables[i], previous))
               then [Binding(variables[i].name, Observed(variables[i], previous), at)] else [])
  {
    assert variables[..i + 1][..i] == variables[..i];
    var before, after := ExportedEntries(variables[..i], previous), ExportedEntries(variables[..i + 1], previous);
    if variables[i].exported {
      assert after[..|before|] == before;
    } else {
      assert after == before;
    }
  }

  /** One pass over the exported entries of a partial snapshot; nothing is unset. */
  method ReconcileExported(held: map<string, Binding<Variable>>, variables: seq<ShellVariable>, at: SequenceNo,
                           previous: Option<PreviousCommand>)
    returns (upserts: seq<Binding<Variable>>)
    ensures upserts == Mismatched(held, ExportedEntries(variables, previous), at)
  {
    upserts := [];
    for i := 0 to |variables|
      invariant upserts == Mismatched(held, ExportedEntries(variables[..i], previous), at)
    {
      ExportedNext(held, variables, i, at, previous);
      if variables[i].exported {
        var content := Observed(variables[i], previous);
        if !Holds(held, variables[i].name, content) {
          upserts := upserts + [Binding(variables[i].name, content, at)];
        }
      }
    }
    assert variables[..|variables|] == variables;
  }

  method ReconcileVariableState(s: Summary, before: Snapshot, at: SequenceNo, previous: Option<PreviousCommand>,
                                can: Capabilities)
    returns (upserts: seq<Binding<Variable>>, unsets: seq<string>)
    ensures (upserts, unsets) == ReconcileVariables(s, before, at, previous, can)
  {
    upserts, unsets := [], [];
    if can.PersistsSomeVariables() {
      match before.variableKnowledge {
        case Complete =>
          var live := LiveVariables(before, previous, can);
          upserts := UpsertLive(s.variables, live, at);
          unsets := UnsetStale(s.variables, live, Persisted(can));
        case ExportedOnly =>
          if can.exportedEnvironment {
            upserts := ReconcileExported(s.variables, before.variables, at, previous);
          }
        case Unknown =>
      }
    }
  }

  /** For aliases and for functions. */
  method ReconcileBodyState(held: map<string, Binding<string>>, bodies: seq<ShellBody>, knowledge: Knowledge,
                            persisted: bool, at: SequenceNo)
    returns (upserts: seq<Binding<string>>, unsets: seq<string>)
    ensures (upserts, unsets) == ReconcileBodies(held, bodies, knowledge, persisted, at)
  {
    upserts, unsets := [], [];
    if persisted && knowledge == Complete {
      var live := LastWins(BodyEntries(bodies));
      upserts := UpsertLive(held, live, at);
      unsets := UnsetStale(held, live, Anything());
    }
  }

  method ReconcileShellStateBefore(s: Summary, before: Snapshot, at: SequenceNo, previous: Option<PreviousCommand>,
                                   can: Capabilities)
    returns (delta: Delta)
    ensures delta == Reconcile(s, before, at, previous, can)
  {
    delta := NO_CHANGE.(cwdAfter := ReconcileCwd(s, before, at, previous, can));
    var upsertVariables, unsetVariables := ReconcileVariableState(s, before, at, previous, can);
    delta := delta.(upsertVariables := upsertVariables, unsetVariables := unsetVariables);
    delta := delta.(positionalsAfter := ReconcilePositionals(s, before, can));
    var upsertAliases, unsetAliases := ReconcileBodyState(s.aliases, before.aliases, before.aliasKnowledge, can.aliases, at);
    delta := delta.(upsertAliases := upsertAliases, unsetAliases := unsetAliases);
    var upsertFunctions, unsetFunctions :=
      ReconcileBodyState(s.functions, before.functions, before.functionKnowledge, can.functions, at);
    delta := delta.(upsertFunctions := upsertFunctions, unsetFunctions := unsetFunctions);
  }
}
