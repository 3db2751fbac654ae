/** The order in which a delta's updates are applied does not matter, unless two of them contradict each other. */
module UpdateOrder {
  import opened Wrappers
  import opened GraphTypes
  import opened SessionSummary
  import opened Mutations
  import opened Reconciliation
  import opened Agreement

  /** The one thing in a summary that a mutation is about. */
  datatype Target =
    | NoTarget | CwdTarget | PositionalsTarget
    | VariableTarget(name: string) | AliasTarget(name: string) | FunctionTarget(name: string)

  function TargetOf(m: Mutation): Target {
    match m
    case SetCurrentWorkingDirectory(_, _, _) => CwdTarget
    case SetPositionalParameters(_, _) => PositionalsTarget
    case ForgetPositionalParameters(_) => PositionalsTarget
    case UpsertVariableBinding(b) => VariableTarget(b.name)
    case UnsetVariableBinding(name, _) => VariableTarget(name)
    case UpsertAliasBinding(b) => AliasTarget(b.name)
    case UnsetAliasBinding(name, _) => AliasTarget(name)
    case UpsertFunctionBinding(b) => FunctionTarget(b.name)
    case UnsetFunctionBinding(name, _) => FunctionTarget(name)
    case _ => NoTarget
  }

  predicate Independent(a: Mutation, b: Mutation) {
    a == b || TargetOf(a) != TargetOf(b) || TargetOf(a) == NoTarget
  }

  lemma UpsertsCommute<V>(held: map<string, Binding<V>>, a: Binding<V>, b: Binding<V>)
    requires a.name != b.name
    ensures Upserted(Upserted(held, a), b) == Upserted(Upserted(held, b), a)
  {
    assert held[a.name := a][b.name := b] == held[b.name := b][a.name := a];
  }

  lemma UpsertUnsetCommute<V>(held: map<string, Binding<V>>, a: Binding<V>, name: string, at: SequenceNo)
    requires a.name != name
    ensures Unset(Upserted(held, a), name, at) == Upserted(Unset(held, name, at), a)
  {
    assert held[a.name := a] - {name} == (held - {name})[a.name := a];
  }

  lemma UnsetsCommute<V>(held: map<string, Binding<V>>, x: string, m: SequenceNo, y: string, n: SequenceNo)
    ensures x != y ==> Unset(Unset(held, x, m), y, n) == Unset(Unset(held, y, n), x, m)
  {
    assert held - {x} - {y} == held - {y} - {x};
  }

  // What a mutation makes of each part of a summary.

  predicate Effective(m: Mutation, can: Capabilities) {
    match m
    case SetCurrentWorkingDirectory(_, _, _) => can.cwd
    case SetPositionalParameters(_, _) => can.positionals
    case ForgetPositionalParameters(_) => can.positionals
    case UpsertVariableBinding(b) => can.PersistsVariable(b.content.exported)
    case UnsetVariableBinding(_, _) => can.PersistsSomeVariables()
    case UpsertAliasBinding(_) => can.aliases
    case UnsetAliasBinding(_, _) => can.aliases
    case UpsertFunctionBinding(_) => can.functions
    case UnsetFunctionBinding(_, _) => can.functions
    case _ => false
  }

  /** When a mutation says that it was observed. */
  function ObservedAt(m: Mutation): SequenceNo {
    match m
    case SetCurrentWorkingDirectory(_, n, _) => n
    case SetPositionalParameters(_, n) => n
    case ForgetPositionalParameters(n) => n
    case UpsertVariableBinding(b) => b.observedAt
    case UnsetVariableBinding(_, n) => n
    case UpsertAliasBinding(b) => b.observedAt
    case UnsetAliasBinding(_, n) => n
    case UpsertFunctionBinding(b) => b.observedAt
    case UnsetFunctionBinding(_, n) => n
    case _ => 0
  }

  function LastAfter(last: Option<SequenceNo>, m: Mutation, can: Capabilities): Option<SequenceNo> {
    if Effective(m, can) then Later(last, ObservedAt(m)) else last
  }

  function VariablesAfter(held: map<string, Binding<Variable>>, m: Mutation, can: Capabilities)
    : map<string, Binding<Variable>>
  {
    if m.UpsertVariableBinding? && can.PersistsVariable(m.variable.content.exported) then Upserted(held, m.variable)
    else if m.UnsetVariableBinding? && can.PersistsSomeVariables() then Unset(held, m.name, m.observedAt)
    else held
  }

  function AliasesAfter(held: map<string, Binding<string>>, m: Mutation,
                        can: Capabilities): map<string, Binding<string>> {
    if m.UpsertAliasBinding? && can.aliases then Upserted(held, m.alias)
    else if m.UnsetAliasBinding? && can.aliases then Unset(held, m.name, m.observedAt)
    else held
  }

  function FunctionsAfter(held: map<string, Binding<string>>, m: Mutation, can: Capabilities)
    : map<string, Binding<string>>
  {
    if m.UpsertFunctionBinding? && can.functions then Upserted(held, m.definition)
    else if m.UnsetFunctionBinding? && can.functions then Unset(held, m.name, m.observedAt)
    else held
  }

  function CwdAfter(held: Option<Cwd>, m: Mutation, can: Capabilities): Option<Cwd> {
    if m.SetCurrentWorkingDirectory? && can.cwd && (held.None? || held.value.observedAt <= m.observedAt)
    then Some(Cwd(m.path, m.observedAt, m.cwdSource))
    else held
  }

  function PositionalsAfter(held: (Option<Positionals>, Option<SequenceNo>), m: Mutation, can: Capabilities)
    : (Option<Positionals>, Option<SequenceNo>)
  {
    if TargetOf(m).PositionalsTarget? && can.positionals
       && ReplacesPositionals(EMPTY.(positionals := held.0, positionalsUnknownAt := held.1), m.observedAt)
    then if m.SetPositionalParameters? then (Some(Positionals(m.values, m.observedAt)), None) else (None, Some(m.observedAt))
    else held
  }

  // Each part after a mutation depends on that part before it only.

  lemma VariablesOnTheirOwn(s: Summary, m: Mutation, can: Capabilities)
    ensures ApplyLive(s, m, can).variables == VariablesAfter(s.variables, m, can)
  {
  }

  lemma BodiesOnTheirOwn(s: Summary, m: Mutation, can: Capabilities)
    ensures ApplyLive(s, m, can).aliases == AliasesAfter(s.aliases, m, can)
    ensures ApplyLive(s, m, can).functions == FunctionsAfter(s.functions, m, can)
  {
  }

  lemma MapsOnTheirOwn(s: Summary, m: Mutation, can: Capabilities)
    ensures var r := ApplyLive(s, m, can);
            && r.variables == VariablesAfter(s.variables, m, can)
            && r.aliases == AliasesAfter(s.aliases, m, can)
            && r.functions == FunctionsAfter(s.functions, m, can)
  {
    VariablesOnTheirOwn(s, m, can);
    BodiesOnTheirOwn(s, m, can);
  }

  lemma OthersOnTheirOwn(s: Summary, m: Mutation, can: Capabilities)
    ensures var r := ApplyLive(s, m, can);
            && r.lastSequenceNo == LastAfter(s.lastSequenceNo, m, can)
            && r.cwd == CwdAfter(s.cwd, m, can)
            && (r.positionals, r.positionalsUnknownAt)
               == PositionalsAfter((s.positionals, s.positionalsUnknownAt), m, can)
  {
  }

  lemma VariablesCommute(held: map<string, Binding<Variable>>, a: Mutation, b: Mutation, can: Capabilities)
    requires Independent(a, b)
    ensures VariablesAfter(VariablesAfter(held, a, can), b, can) == VariablesAfter(VariablesAfter(held, b, can), a, can)
  {
    if a.UpsertVariableBinding? && b.UpsertVariableBinding? && a != b {
      UpsertsCommute(held, a.variable, b.variable);
    } else if a.UpsertVariableBinding? && b.UnsetVariableBinding? {
      UpsertUnsetCommute(held, a.variable, b.name, b.observedAt);
    } else if a.UnsetVariableBinding? && b.UpsertVariableBinding? {
      UpsertUnsetCommute(held, b.variable, a.name, a.observedAt);
    } else if a.UnsetVariableBinding? && b.UnsetVariableBinding? {
      UnsetsCommute(held, a.name, a.observedAt, b.name, b.observedAt);
    }
  }

  lemma AliasesCommute(held: map<string, Binding<string>>, a: Mutation, b: Mutation, can: Capabilities)
    requires Independent(a, b)
    ensures AliasesAfter(AliasesAfter(held, a, can), b, can) == AliasesAfter(AliasesAfter(held, b, can), a, can)
  {
    if a.UpsertAliasBinding? && b.UpsertAliasBinding? && a != b {
      UpsertsCommute(held, a.alias, b.alias);
    } else if a.UpsertAliasBinding? && b.UnsetAliasBinding? {
      UpsertUnsetCommute(held, a.alias, b.name, b.observedAt);
    } else if a.UnsetAliasBinding? && b.UpsertAliasBinding? {
      UpsertUnsetCommute(held, b.alias, a.name, a.observedAt);
    } else if a.UnsetAliasBinding? && b.UnsetAliasBinding? {
      UnsetsCommute(held, a.name, a.observedAt, b.name, b.observedAt);
    }
  }

  lemma FunctionsCommute(held: map<string, Binding<string>>, a: Mutation, b: Mutation, can: Capabilities)
    requires Independent(a, b)
    ensures FunctionsAfter(FunctionsAfter(held, a, can), b, can) == FunctionsAfter(FunctionsAfter(held, b, can), a, can)
  {
    if a.UpsertFunctionBinding? && b.UpsertFunctionBinding? && a != b {
      UpsertsCommute(held, a.definition, b.definition);
    } else if a.UpsertFunctionBinding? && b.UnsetFunctionBinding? {
      UpsertUnsetCommute(held, a.definition, b.name, b.observedAt);
    } else if a.UnsetFunctionBinding? && b.UpsertFunctionBinding? {
      UpsertUnsetCommute(held, b.definition, a.name, a.observedAt);
    } else if a.UnsetFunctionBinding? && b.UnsetFunctionBinding? {
      UnsetsCommute(held, a.name, a.observedAt, b.name, b.observedAt);
    }
  }

  /** At most one of two different independent mutations is about the directory, and at most one about positionals. */
  lemma OthersCommute(cwd: Option<Cwd>, positionals: (Option<Positionals>, Option<SequenceNo>), a: Mutation,
                      b: Mutation,
                      can: Capabilities)
    requires Independent(a, b) && a != b
    ensures CwdAfter(CwdAfter(cwd, a, can), b, can) == CwdAfter(CwdAfter(cwd, b, can), a, can)
    ensures PositionalsAfter(PositionalsAfter(positionals, a, can), b, can)
         == PositionalsAfter(PositionalsAfter(positionals, b, can), a, can)
  {
    assert !(TargetOf(a).CwdTarget? && TargetOf(b).CwdTarget?);
    assert !(TargetOf(a).PositionalsTarget? && TargetOf(b).PositionalsTarget?);
  }

  lemma LastsCommute(last: Option<SequenceNo>, a: Mutation, b: Mutation, can: Capabilities)
    ensures LastAfter(LastAfter(last, a, can), b, can) == LastAfter(LastAfter(last, b, can), a, can)
  {
  }

  /** Mutations about different things commute, whatever was observed when. */
  lemma IndependentCommute(s: Summary, a: Mutation, b: Mutation, can: Capabilities)
    requires Independent(a, b)
    ensures ApplyLive(ApplyLive(s, a, can), b, can) == ApplyLive(ApplyLive(s, b, can), a, can)
  {
    if a != b {
      MapsOnTheirOwn(s, a, can);
      OthersOnTheirOwn(s, a, can);
      MapsOnTheirOwn(s, b, can);
      OthersOnTheirOwn(s, b, can);
      MapsOnTheirOwn(ApplyLive(s, a, can), b, can);
      OthersOnTheirOwn(ApplyLive(s, a, can), b, can);
      MapsOnTheirOwn(ApplyLive(s, b, can), a, can);
      OthersOnTheirOwn(ApplyLive(s, b, can), a, can);
      LastsCommute(s.lastSequenceNo, a, b, can);
      VariablesCommute(s.variables, a, b, can);
      AliasesCommute(s.aliases, a, b, can);
      FunctionsCommute(s.functions, a, b, can);
      OthersCommute(s.cwd, (s.positionals, s.positionalsUnknownAt), a, b, can);
    }
  }

  ghost predicate AllIndependent(batch: seq<Mutation>) {
    forall a, b | a in batch && b in batch :: Independent(a, b)
  }

  /** A mutation that is independent of all the others may as well come last. */
  lemma {:induction false} MoveToEnd(s: Summary, batch: seq<Mutation>, k: nat, can: Capabilities)
    requires k < |batch| && forall m | m in batch :: Independent(batch[k], m)
    ensures ApplyAllLive(s, batch, can) == ApplyAllLive(s, batch[..k] + batch[k + 1..] + [batch[k]], can)
    decreases |batch|
  {
    var n := |batch| - 1;
    if k == n {
      assert batch[..k] + batch[k + 1..] + [batch[k]] == batch;
    } else {
      var front, x, z := batch[..n], batch[k], batch[n];
      var rest := front[..k] + front[k + 1..];
      assert batch == front + [z] && batch[..k] + batch[k + 1..] + [x] == rest + [z] + [x];
      assert z in batch && forall m | m in front :: m in batch;
      MoveToEnd(s, front, k, can);
      ApplyPush(s, front, z, can);
      ApplyPush(s, rest, x, can);
      ApplyPush(s, rest, z, can);
      ApplyPush(s, rest + [z], x, can);
      IndependentCommute(ApplyAllLive(s, rest, can), x, z, can);
    }
  }

  lemma WithoutOne<T>(s: seq<T>, k: nat)
    requires k < |s|
    ensures multiset(s) == multiset(s[..k] + s[k + 1..]) + multiset{s[k]}
  {
    assert s == s[..k] + [s[k]] + s[k + 1..];
  }

  lemma CancelOne<T(!new)>(x: multiset<T>, y: multiset<T>, e: T)
    requires x + multiset{e} == y + multiset{e}
    ensures x == y
  {
    forall t ensures x[t] == y[t] {
      assert (x + multiset{e})[t] == (y + multiset{e})[t];
    }
  }

  /** Independent mutations may be applied in any order. */
  lemma {:induction false} AnyOrder(s: Summary, a: seq<Mutation>, b: seq<Mutation>, can: Capabilities)
    requires multiset(a) == multiset(b) && AllIndependent(a)
    ensures ApplyAllLive(s, a, can) == ApplyAllLive(s, b, can)
    decreases |a|
  {
    assert |multiset(a)| == |a| && |multiset(b)| == |b|;
    if a != [] {
      var n := |a| - 1;
      assert a[n] in multiset(b);
      var k :| 0 <= k < |b| && b[k] == a[n];
      var rest := b[..k] + b[k + 1..];
      WithoutOne(b, k);
      WithoutOne(a, n);
      assert a[..n] + a[n + 1..] == a[..n];
      CancelOne(multiset(rest), multiset(a[..n]), a[n]);
      assert forall m | m in a[..n] :: m in a;
      forall m | m in b ensures Independent(b[k], m) {
        assert m in multiset(a);
      }
      MoveToEnd(s, b, k, can);
      AnyOrder(s, a[..n], rest, can);
      ApplyLast(s, a, can);
      ApplyLast(s, rest + [b[k]], can);
      assert (rest + [b[k]])[..n] == rest;
    }
  }

  // The mutations of a reconciliation.

  predicate UniqueTargets<V(==)>(bs: seq<Binding<V>>) {
    forall i, j | 0 <= i < |bs| && 0 <= j < |bs| && bs[i].name == bs[j].name :: bs[i] == bs[j]
  }

  predicate Disjoint<V>(bs: seq<Binding<V>>, names: seq<string>) {
    forall i | 0 <= i < |bs| :: bs[i].name !in names
  }

  lemma OnlyUniqueMismatched<V(!new)>(held: map<string, Binding<V>>, entries: seq<(string, V)>,
                                       at: SequenceNo)
    requires Consistent(entries)
    ensures UniqueTargets(Mismatched(held, entries, at))
  {
    MismatchedMembers(held, entries, at);
    var bs := Mismatched(held, entries, at);
    forall i, j | 0 <= i < |bs| && 0 <= j < |bs| && bs[i].name == bs[j].name ensures bs[i] == bs[j] {
      assert bs[i] in bs && bs[j] in bs;
    }
  }

  /** No name is both upserted and unset; only a contradictory partial snapshot upserts one name in two ways. */
  lemma UpsertsAvoidUnsets(s: Summary, before: Snapshot, at: SequenceNo, previous: Option<PreviousCommand>,
                           can: Capabilities)
    ensures var delta := Reconcile(s, before, at, previous, can);
            && Disjoint(delta.upsertVariables, delta.unsetVariables)
            && Disjoint(delta.upsertAliases, delta.unsetAliases)
            && Disjoint(delta.upsertFunctions, delta.unsetFunctions)
            && UniqueTargets(delta.upsertAliases) && UniqueTargets(delta.upsertFunctions)
            && (ContradictionFree(before, previous, can) ==> UniqueTargets(delta.upsertVariables))
  {
    VariableUpsertsAvoidUnsets(s, before, at, previous, can);
    BodyUpsertsAvoidUnsets(s.aliases, before.aliases, before.aliasKnowledge, can.aliases, at);
    BodyUpsertsAvoidUnsets(s.functions, before.functions, before.functionKnowledge, can.functions, at);
  }

  lemma VariableUpsertsAvoidUnsets(s: Summary, before: Snapshot, at: SequenceNo, previous: Option<PreviousCommand>,
                                   can: Capabilities)
    ensures var (upserts, unsets) := ReconcileVariables(s, before, at, previous, can);
            Disjoint(upserts, unsets) && (ContradictionFree(before, previous, can) ==> UniqueTargets(upserts))
  {
    if can.PersistsSomeVariables() && before.variableKnowledge == Complete {
      CompleteDisjoint(s.variables, LiveVariables(before, previous, can), Persisted(can), at);
    } else if ContradictionFree(before, previous, can) && can.exportedEnvironment {
      if before.variableKnowledge == ExportedOnly {
        OnlyUniqueMismatched(s.variables, ExportedEntries(before.variables, previous), at);
      }
    }
  }

  lemma BodyUpsertsAvoidUnsets(held: map<string, Binding<string>>, bodies: seq<ShellBody>, knowledge: Knowledge,
                               persisted: bool, at: SequenceNo)
    ensures var (upserts, unsets) := ReconcileBodies(held, bodies, knowledge, persisted, at);
            Disjoint(upserts, unsets) && UniqueTargets(upserts)
  {
    if persisted && knowledge == Complete {
      CompleteDisjoint(held, LastWins(BodyEntries(bodies)), Anything(), at);
    }
  }

  lemma CompleteDisjoint<V(!new)>(held: map<string, Binding<V>>, live: map<string, V>, removable: V -> bool,
                                  at: SequenceNo)
    ensures Disjoint(Mismatched(held, InNameOrder(live), at), AllStale(held, live, removable))
    ensures UniqueTargets(Mismatched(held, InNameOrder(live), at))
  {
    var bs := Mismatched(held, InNameOrder(live), at);
    MismatchedMembers(held, InNameOrder(live), at);
    StaleMembers(held, live, removable, NamesInOrder(held.Keys));
    assert forall i | 0 <= i < |bs| :: bs[i] in bs && (bs[i].name, bs[i].content) in InNameOrder(live);
    OnlyUniqueMismatched(held, InNameOrder(live), at);
  }

  ghost predicate SameUpdates(a: seq<Mutation>, b: seq<Mutation>) {
    multiset(a) == multiset(b)
  }

  /** Where an update of the delta comes from. */
  predicate Belongs(delta: Delta, at: SequenceNo, m: Mutation) {
    match m
    case SetCurrentWorkingDirectory(_, _, _) => [m] == CwdMutation(delta.cwdAfter, at)
    case SetPositionalParameters(_, _) => [m] == PositionalMutation(delta.positionalsAfter, delta.positionalsUnknownAfter, at)
    case ForgetPositionalParameters(_) => [m] == PositionalMutation(delta.positionalsAfter, delta.positionalsUnknownAfter, at)
    case UpsertVariableBinding(_) => m in VariableUpserts(delta.upsertVariables, at)
    case UnsetVariableBinding(name, n) => name in delta.unsetVariables && n == at
    case UpsertAliasBinding(_) => m in AliasUpserts(delta.upsertAliases, at)
    case UnsetAliasBinding(name, n) => name in delta.unsetAliases && n == at
    case UpsertFunctionBinding(_) => m in FunctionUpserts(delta.upsertFunctions, at)
    case UnsetFunctionBinding(name, n) => name in delta.unsetFunctions && n == at
    case _ => false
  }

  lemma AllBelong(delta: Delta, at: SequenceNo, m: Mutation)
    requires m in SummaryMutations(delta, at)
    ensures Belongs(delta, at, m) && ObservedAt(m) == at
  {
    assert m in CwdMutation(delta.cwdAfter, at)
        || m in PositionalMutation(delta.positionalsAfter, delta.positionalsUnknownAfter, at)
        || m in VariableUpserts(delta.upsertVariables, at) || m in VariableUnsets(delta.unsetVariables, at)
        || m in AliasUpserts(delta.upsertAliases, at) || m in AliasUnsets(delta.unsetAliases, at)
        || m in FunctionUpserts(delta.upsertFunctions, at) || m in FunctionUnsets(delta.unsetFunctions, at);
  }

  lemma UpdatesIndependent(delta: Delta, at: SequenceNo)
    requires UniqueTargets(delta.upsertVariables) && Disjoint(delta.upsertVariables, delta.unsetVariables)
    requires UniqueTargets(delta.upsertAliases) && Disjoint(delta.upsertAliases, delta.unsetAliases)
    requires UniqueTargets(delta.upsertFunctions) && Disjoint(delta.upsertFunctions, delta.unsetFunctions)
    ensures AllIndependent(SummaryMutations(delta, at))
  {
    forall a, b | a in SummaryMutations(delta, at) && b in SummaryMutations(delta, at) ensures Independent(a, b) {
      AllBelong(delta, at, a);
      AllBelong(delta, at, b);
    }
  }

  /** What a mutation does to the maps of bindings stays below the later of the old bound and its own moment. */
  lemma MapsFiled(variables: map<string, Binding<Variable>>, aliases: map<string, Binding<string>>,
                  functions: map<string, Binding<string>>, m: Mutation, can: Capabilities, last: SequenceNo,
                  next: SequenceNo)
    requires Filed(variables, last) && Filed(aliases, last) && Filed(functions, last)
    requires last <= next && (Effective(m, can) ==> ObservedAt(m) <= next)
    ensures Filed(VariablesAfter(variables, m, can), next)
    ensures Filed(AliasesAfter(aliases, m, can), next) && Filed(FunctionsAfter(functions, m, can), next)
  {
  }

  lemma ValidKept(s: Summary, m: Mutation, can: Capabilities)
    requires Valid(s)
    ensures Valid(ApplyLive(s, m, can))
  {
    MapsOnTheirOwn(s, m, can);
    OthersOnTheirOwn(s, m, can);
    var r := ApplyLive(s, m, can);
    if r.lastSequenceNo.Some? {
      var last := if s.lastSequenceNo.Some? then s.lastSequenceNo.value else 0;
      MapsFiled(s.variables, s.aliases, s.functions, m, can, last, r.lastSequenceNo.value);
    }
  }

  /** A batch keeps a summary valid, and mutations of one moment do not move the last sequence number past it. */
  lemma {:induction false} AllValidKept(s: Summary, batch: seq<Mutation>, can: Capabilities)
    requires Valid(s)
    ensures Valid(ApplyAllLive(s, batch, can))
    decreases |batch|
  {
    if batch != [] {
      ValidKept(s, batch[0], can);
      AllValidKept(ApplyLive(s, batch[0], can), batch[1..], can);
    }
  }

  lemma {:induction false} LastStays(s: Summary, batch: seq<Mutation>, at: SequenceNo, can: Capabilities)
    requires s.lastSequenceNo == Some(at) && forall m | m in batch :: ObservedAt(m) <= at
    ensures ApplyAllLive(s, batch, can).lastSequenceNo == Some(at)
    decreases |batch|
  {
    if batch != [] {
      assert batch[0] in batch;
      OthersOnTheirOwn(s, batch[0], can);
      LastStays(ApplyLive(s, batch[0], can), batch[1..], at, can);
    }
  }

  // What a batch makes of the summary, told from its mutations.

  /** The summary has it as the mutation says. */
  predicate Says(s: Summary, m: Mutation) {
    match m
    case SetCurrentWorkingDirectory(path, n, source) => s.cwd == Some(Cwd(path, n, source))
    case SetPositionalParameters(values, n) => s.positionals == Some(Positionals(values, n)) && s.positionalsUnknownAt.None?
    case ForgetPositionalParameters(n) => s.positionals.None? && s.positionalsUnknownAt == Some(n)
    case UpsertVariableBinding(b) => b.name in s.variables && s.variables[b.name] == b
    case UnsetVariableBinding(name, _) => name !in s.variables
    case UpsertAliasBinding(b) => b.name in s.aliases && s.aliases[b.name] == b
    case UnsetAliasBinding(name, _) => name !in s.aliases
    case UpsertFunctionBinding(b) => b.name in s.functions && s.functions[b.name] == b
    case UnsetFunctionBinding(name, _) => name !in s.functions
    case _ => true
  }

  /** Nothing that the summary holds about the same thing is newer. */
  predicate NotOutdated(s: Summary, m: Mutation) {
    match m
    case SetCurrentWorkingDirectory(_, n, _) => s.cwd.Some? ==> s.cwd.value.observedAt <= n
    case SetPositionalParameters(_, n) => PositionalsNoNewer(s, n)
    case ForgetPositionalParameters(n) => PositionalsNoNewer(s, n)
    case UpsertVariableBinding(b) => b.name in s.variables ==> s.variables[b.name].observedAt <= b.observedAt
    case UnsetVariableBinding(name, n) => name in s.variables ==> s.variables[name].observedAt <= n
    case UpsertAliasBinding(b) => b.name in s.aliases ==> s.aliases[b.name].observedAt <= b.observedAt
    case UnsetAliasBinding(name, n) => name in s.aliases ==> s.aliases[name].observedAt <= n
    case UpsertFunctionBinding(b) => b.name in s.functions ==> s.functions[b.name].observedAt <= b.observedAt
    case UnsetFunctionBinding(name, n) => name in s.functions ==> s.functions[name].observedAt <= n
    case _ => true
  }

  predicate PositionalsNoNewer(s: Summary, n: SequenceNo) {
    if s.positionals.Some? then s.positionals.value.observedAt <= n
    else s.positionalsUnknownAt.Some? ==> s.positionalsUnknownAt.value <= n
  }

  predicate Unsets(m: Mutation) {
    m.UnsetVariableBinding? || m.UnsetAliasBinding? || m.UnsetFunctionBinding?
  }

  /** About something else, or older; but a removal leaves nothing behind that an older observation could be held to. */
  predicate LeavesAlone(later: Mutation, m: Mutation) {
    TargetOf(later) != TargetOf(m) || (ObservedAt(later) < ObservedAt(m) && !Unsets(m))
  }

  lemma StillSays(s: Summary, m: Mutation, later: Mutation, can: Capabilities)
    requires Says(s, m) && LeavesAlone(later, m)
    ensures Says(ApplyLive(s, later, can), m)
  {
  }

  lemma SaysIt(s: Summary, m: Mutation, can: Capabilities)
    requires Effective(m, can) && NotOutdated(s, m)
    ensures Says(ApplyLive(s, m, can), m)
  {
  }

  lemma {:induction false} StillSaysAll(s: Summary, m: Mutation, later: seq<Mutation>, can: Capabilities)
    requires Says(s, m) && forall x | x in later :: LeavesAlone(x, m)
    ensures Says(ApplyAllLive(s, later, can), m)
    decreases |later|
  {
    if later != [] {
      assert later[0] in later;
      StillSays(s, m, later[0], can);
      StillSaysAll(ApplyLive(s, later[0], can), m, later[1..], can);
    }
  }

  /** The newest observation of a thing has its way, whatever older ones come after it. */
  lemma NewestStays(s: Summary, before: seq<Mutation>, m: Mutation, later: seq<Mutation>, can: Capabilities)
    requires Effective(m, can) && NotOutdated(ApplyAllLive(s, before, can), m)
    requires forall x | x in later :: LeavesAlone(x, m)
    ensures Says(ApplyAllLive(s, before + [m] + later, can), m)
  {
    ApplyConcat(s, before + [m], later, can);
    ApplyPush(s, before, m, can);
    SaysIt(ApplyAllLive(s, before, can), m, can);
    StillSaysAll(ApplyAllLive(s, before + [m], can), m, later, can);
  }

  /** What the runtime does not persist is as it was: a whole part, or variables that are not exported. */
  predicate UnpersistedKept(r: Summary, s: Summary, can: Capabilities) {
    && (!can.cwd ==> r.cwd == s.cwd)
    && (!can.positionals ==> r.positionals == s.positionals && r.positionalsUnknownAt == s.positionalsUnknownAt)
    && (!can.aliases ==> r.aliases == s.aliases)
    && (!can.functions ==> r.functions == s.functions)
    && (!can.variables && !can.exportedEnvironment ==> r.variables == s.variables)
    && (!can.variables ==> forall name | name in r.variables && !r.variables[name].content.exported ::
          name in s.variables && r.variables[name] == s.variables[name])
  }

  lemma {:induction false} UnpersistedStays(s: Summary, batch: seq<Mutation>, can: Capabilities)
    ensures UnpersistedKept(ApplyAllLive(s, batch, can), s, can)
    decreases |batch|
  {
    if batch != [] {
      OneUnpersisted(s, batch[0], can);
      UnpersistedStays(ApplyLive(s, batch[0], can), batch[1..], can);
    }
  }

  lemma OneUnpersisted(s: Summary, m: Mutation, can: Capabilities)
    ensures UnpersistedKept(ApplyLive(s, m, can), s, can)
  {
  }

  /** Applied last, an upsert has its way. */
  lemma LastUpsertWins(s: Summary, rest: seq<Mutation>, b: Binding<Variable>, at: SequenceNo, can: Capabilities)
    requires Valid(s) && s.lastSequenceNo == Some(at) && forall m | m in rest :: ObservedAt(m) == at
    requires b.observedAt == at && can.PersistsVariable(b.content.exported)
    ensures var r := ApplyAllLive(s, rest + [UpsertVariableBinding(b)], can);
            b.name in r.variables && r.variables[b.name] == b
  {
    ApplyPush(s, rest, UpsertVariableBinding(b), can);
    AllValidKept(s, rest, can);
    LastStays(s, rest, at, can);
  }

  lemma UpdateAt(delta: Delta, at: SequenceNo, i: nat) returns (k: nat)
    requires i < |delta.upsertVariables| && delta.upsertVariables[i].observedAt == at
    ensures k < |SummaryMutations(delta, at)|
    ensures SummaryMutations(delta, at)[k] == UpsertVariableBinding(delta.upsertVariables[i])
  {
    var m := UpsertVariableBinding(delta.upsertVariables[i]);
    assert VariableUpserts(delta.upsertVariables, at)[i] == m;
    assert m in SummaryMutations(delta, at);
    k :| 0 <= k < |SummaryMutations(delta, at)| && SummaryMutations(delta, at)[k] == m;
  }

  lemma LastSays(s: Summary, delta: Delta, at: SequenceNo, can: Capabilities, i: nat) returns (order: seq<Mutation>)
    requires Valid(s) && s.lastSequenceNo == Some(at) && Permitted(delta, at, can) && i < |delta.upsertVariables|
    ensures SameUpdates(order, SummaryMutations(delta, at))
    ensures var b, r := delta.upsertVariables[i], ApplyAllLive(s, order, can);
            b.name in r.variables && r.variables[b.name] == b
  {
    var updates := SummaryMutations(delta, at);
    var k := UpdateAt(delta, at, i);
    var rest := updates[..k] + updates[k + 1..];
    order := rest + [updates[k]];
    WithoutOne(updates, k);
    forall m | m in rest ensures ObservedAt(m) == at {
      AllBelong(delta, at, m);
    }
    LastUpsertWins(s, rest, delta.upsertVariables[i], at, can);
  }

  /** All orders of applying the delta's updates give the same summary. */
  ghost predicate OrderFree(s: Summary, before: Snapshot, at: SequenceNo, previous: Option<PreviousCommand>,
                            can: Capabilities) {
    var updates := SummaryMutations(Reconcile(s, before, at, previous, can), at);
    forall order | SameUpdates(order, updates) ::
      ApplyAllLive(s, order, can) == Reconciled(s, before, at, previous, can)
  }

  /** That is so exactly when no variable is upserted in two ways. */
  lemma OrderFreeIfUnique(s: Summary, before: Snapshot, at: SequenceNo, previous: Option<PreviousCommand>,
                         can: Capabilities)
    requires Valid(s) && s.lastSequenceNo == Some(at)
    ensures OrderFree(s, before, at, previous, can)
            <==> UniqueTargets(Reconcile(s, before, at, previous, can).upsertVariables)
  {
    var delta := Reconcile(s, before, at, previous, can);
    var updates := SummaryMutations(delta, at);
    UpsertsAvoidUnsets(s, before, at, previous, can);
    ReconcilePermitted(s, before, at, previous, can);
    if UniqueTargets(delta.upsertVariables) {
      UpdatesIndependent(delta, at);
      forall order | SameUpdates(order, updates) ensures ApplyAllLive(s, order, can) == ApplyAllLive(s, updates, can) {
        AnyOrder(s, updates, order, can);
      }
    } else {
      var i, j :| 0 <= i < |delta.upsertVariables| && 0 <= j < |delta.upsertVariables|
                  && delta.upsertVariables[i].name == delta.upsertVariables[j].name
                  && delta.upsertVariables[i] != delta.upsertVariables[j];
      var x := LastSays(s, delta, at, can, i);
      var y := LastSays(s, delta, at, can, j);
      assert ApplyAllLive(s, x, can) != ApplyAllLive(s, y, can);
    }
  }

  /** One name has two contents, neither of which is held. */
  predicate BothUnheld(held: map<string, Binding<Variable>>, entries: seq<(string, Variable)>) {
    exists i, j | 0 <= i < |entries| && 0 <= j < |entries| && entries[i].0 == entries[j].0 ::
      && entries[i].1 != entries[j].1
      && !Holds(held, entries[i].0, entries[i].1) && !Holds(held, entries[j].0, entries[j].1)
  }

  lemma UniqueMismatchedExactly(held: map<string, Binding<Variable>>, entries: seq<(string, Variable)>, at: SequenceNo)
    ensures UniqueTargets(Mismatched(held, entries, at)) <==> !BothUnheld(held, entries)
  {
    var bs := Mismatched(held, entries, at);
    MismatchedMembers(held, entries, at);
    if BothUnheld(held, entries) {
      var i, j :| 0 <= i < |entries| && 0 <= j < |entries| && entries[i].0 == entries[j].0
                  && entries[i].1 != entries[j].1
                  && !Holds(held, entries[i].0, entries[i].1) && !Holds(held, entries[j].0, entries[j].1);
      assert Binding(entries[i].0, entries[i].1, at) in bs && Binding(entries[j].0, entries[j].1, at) in bs;
    }
    if !UniqueTargets(bs) {
      var i, j :| 0 <= i < |bs| && 0 <= j < |bs| && bs[i].name == bs[j].name && bs[i] != bs[j];
      assert bs[i] in bs && bs[j] in bs;
    }
  }

  /**
   * Every order of applying the delta's updates gives the same summary, unless a partial snapshot gives a persisted
   * variable two contents and the summary holds neither.
   */
  lemma OrderFreeExactly(s: Summary, before: Snapshot, at: SequenceNo, previous: Option<PreviousCommand>,
                         can: Capabilities)
    requires Valid(s) && s.lastSequenceNo == Some(at)
    ensures OrderFree(s, before, at, previous, can)
            <==> !(can.exportedEnvironment && before.variableKnowledge == ExportedOnly
                   && BothUnheld(s.variables, ExportedEntries(before.variables, previous)))
  {
    OrderFreeIfUnique(s, before, at, previous, can);
    UpsertsAvoidUnsets(s, before, at, previous, can);
    UniqueMismatchedExactly(s.variables, ExportedEntries(before.variables, previous), at);
  }

  // A snapshot that contradicts itself.

  /** What an environment listing gives that names `A` twice. */
  const TWICE_LISTED: Snapshot :=
    Snapshot("/", [ShellVariable("A", ExactScalar("1"), true), ShellVariable("A", ExactScalar("2"), true)], ExportedOnly,
             [], Unknown, [], Unknown, [], Unknown)

  const ENVIRONMENT_ONLY: Capabilities := Capabilities(false, false, true, false, false, false)

  const NOTHING_KNOWN: Summary := SessionSummary.EMPTY.(lastSequenceNo := Some(0))

  function ListedAs(text: string): Mutation {
    UpsertVariableBinding(Binding("A", ListedVariable(text), 0))
  }

  function ListedVariable(text: string): Variable { Variable(ExactScalar(text), true) }

  lemma TwiceListedEntries()
    ensures ExportedEntries(TWICE_LISTED.variables, None) == [("A", ListedVariable("1")), ("A", ListedVariable("2"))]
  {
    var listed := TWICE_LISTED.variables;
    assert listed[..1][..0] == [];
    assert ExportedEntries(listed[..1], None) == [("A", ListedVariable("1"))];
  }

  lemma TwoMismatched(x: Variable, y: Variable)
    ensures Mismatched(map[], [("A", x), ("A", y)], 0) == [Binding("A", x, 0), Binding("A", y, 0)]
  {
    var entries := [("A", x), ("A", y)];
    assert entries[..1][..0] == [];
    assert Mismatched(map[], entries[..1], 0) == [Binding("A", x, 0)];
  }

  lemma TwiceListedUpdates()
    ensures SummaryMutations(Reconcile(NOTHING_KNOWN, TWICE_LISTED, 0, None, ENVIRONMENT_ONLY), 0)
         == [ListedAs("1"), ListedAs("2")]
  {
    TwiceListedEntries();
    TwoMismatched(ListedVariable("1"), ListedVariable("2"));
  }

  /** Of two updates of one moment the later one has its way. */
  lemma LastListedStays(first: string, second: string)
    ensures var r := ApplyAllLive(NOTHING_KNOWN, [ListedAs(first), ListedAs(second)], ENVIRONMENT_ONLY);
            "A" in r.variables && r.variables["A"].content.value == ExactScalar(second)
  {
    var b := Binding("A", ListedVariable(second), 0);
    assert [ListedAs(first)] + [ListedAs(second)] == [ListedAs(first), ListedAs(second)];
    LastUpsertWins(NOTHING_KNOWN, [ListedAs(first)], b, 0, ENVIRONMENT_ONLY);
  }

  lemma TwiceListedReconciled()
    ensures Reconciled(NOTHING_KNOWN, TWICE_LISTED, 0, None, ENVIRONMENT_ONLY)
         == ApplyAllLive(NOTHING_KNOWN, [ListedAs("1"), ListedAs("2")], ENVIRONMENT_ONLY)
  {
    TwiceListedUpdates();
  }

  /** It contradicts itself, and so it never settles. */
  lemma TwiceListedNeverSettles()
    ensures Valid(NOTHING_KNOWN) && !ContradictionFree(TWICE_LISTED, None, ENVIRONMENT_ONLY)
    ensures Reconcile(Reconciled(NOTHING_KNOWN, TWICE_LISTED, 0, None, ENVIRONMENT_ONLY), TWICE_LISTED, 0, None,
                      ENVIRONMENT_ONLY) != NO_CHANGE
  {
    TwiceListedEntries();
    ReconcileIsIdempotent(NOTHING_KNOWN, TWICE_LISTED, 0, None, ENVIRONMENT_ONLY);
  }

  lemma SwappedUpdates(a: Mutation, b: Mutation)
    ensures SameUpdates([b, a], [a, b])
  {
  }

  /** And two orders of its two updates leave two different values. */
  lemma TwiceListedOrdersDiffer()
    ensures var order := [ListedAs("2"), ListedAs("1")];
            SameUpdates(order, SummaryMutations(Reconcile(NOTHING_KNOWN, TWICE_LISTED, 0, None, ENVIRONMENT_ONLY), 0))
    ensures ApplyAllLive(NOTHING_KNOWN, [ListedAs("2"), ListedAs("1")], ENVIRONMENT_ONLY)
         != Reconciled(NOTHING_KNOWN, TWICE_LISTED, 0, None, ENVIRONMENT_ONLY)
  {
    TwiceListedUpdates();
    TwiceListedReconciled();
    SwappedUpdates(ListedAs("1"), ListedAs("2"));
    LastListedStays("1", "2");
    LastListedStays("2", "1");
  }
}
