/** What reconciliation achieves: agreement, idempotence, and freedom from the order of updates. */
module Agreement {
  import opened Wrappers
  import opened GraphTypes
  import opened SessionSummary
  import opened Mutations
  import opened Reconciliation

  // One map of bindings.

  function UpsertedAll<V>(held: map<string, Binding<V>>, bs: seq<Binding<V>>): map<string, Binding<V>> {
    if bs == [] then held else Upserted(UpsertedAll(held, bs[..|bs| - 1]), bs[|bs| - 1])
  }

  function UnsetAll<V>(held: map<string, Binding<V>>, names: seq<string>, at: SequenceNo): map<string, Binding<V>> {
    if names == [] then held else Unset(UnsetAll(held, names[..|names| - 1], at), names[|names| - 1], at)
  }

  predicate Names<V>(bs: seq<Binding<V>>, name: string) {
    exists i | 0 <= i < |bs| :: bs[i].name == name
  }

  /** With nothing newer held, each name ends up with one of its own upserts, and other names stay. */
  lemma {:induction false} UpsertedAllExact<V>(held: map<string, Binding<V>>, bs: seq<Binding<V>>, at: SequenceNo)
    requires Filed(held, at) && forall i | 0 <= i < |bs| :: bs[i].observedAt == at
    ensures var r := UpsertedAll(held, bs);
            && Filed(r, at)
            && (forall name :: name in r <==> name in held || Names(bs, name))
            && (forall name | name in r :: if Names(bs, name) then r[name] in bs else r[name] == held[name])
  {
    if bs != [] {
      var n := |bs| - 1;
      UpsertedAllExact(held, bs[..n], at);
      forall name ensures Names(bs, name) <==> Names(bs[..n], name) || bs[n].name == name {
        if Names(bs[..n], name) {
          var i :| 0 <= i < n && bs[..n][i].name == name;
          assert bs[i].name == name;
        }
      }
    }
  }

  lemma {:induction false} UnsetAllExact<V>(held: map<string, Binding<V>>, names: seq<string>, at: SequenceNo)
    requires Filed(held, at)
    ensures UnsetAll(held, names, at) == map name | name in held && name !in names :: held[name]
  {
    if names != [] {
      var n := |names| - 1;
      UnsetAllExact(held, names[..n], at);
      assert forall name :: name in names <==> name in names[..n] || name == names[n];
    }
  }

  lemma {:induction false} MismatchedMembers<V>(held: map<string, Binding<V>>, entries: seq<(string, V)>,
                                                at: SequenceNo)
    ensures forall i | 0 <= i < |Mismatched(held, entries, at)| :: Mismatched(held, entries, at)[i].observedAt == at
    ensures forall b :: b in Mismatched(held, entries, at) <==>
              b.observedAt == at && (b.name, b.content) in entries && !Holds(held, b.name, b.content)
  {
    if entries != [] {
      var n := |entries| - 1;
      MismatchedMembers(held, entries[..n], at);
      assert forall e :: e in entries <==> e in entries[..n] || e == entries[n];
    }
  }

  lemma {:induction false} StaleMembers<V>(held: map<string, Binding<V>>, live: map<string, V>, removable: V -> bool,
                                           names: seq<string>)
    ensures forall name :: name in Stale(held, live, removable, names) <==>
              name in names && name in held && removable(held[name].content) && name !in live
  {
    if names != [] {
      var n := |names| - 1;
      StaleMembers(held, live, removable, names[..n]);
      assert forall name :: name in names <==> name in names[..n] || name == names[n];
    }
  }

  function AfterComplete<V(!new,==)>(held: map<string, Binding<V>>, live: map<string, V>, removable: V -> bool,
                                     at: SequenceNo): map<string, Binding<V>> {
    UnsetAll(UpsertedAll(held, Mismatched(held, InNameOrder(live), at)), AllStale(held, live, removable), at)
  }

  /** What is live is held; of the rest only what cannot be removed stays, as it was. */
  predicate AgreesAt<V(==)>(r: map<string, Binding<V>>, held: map<string, Binding<V>>, live: map<string, V>,
                            removable: V -> bool, name: string) {
    if name in live then Holds(r, name, live[name]) && (Holds(held, name, live[name]) ==> r[name] == held[name])
    else if name in held && !removable(held[name].content) then name in r && r[name] == held[name]
    else name !in r
  }

  lemma CompleteAgrees<V(!new)>(held: map<string, Binding<V>>, live: map<string, V>, removable: V -> bool,
                         at: SequenceNo)
    requires Filed(held, at)
    ensures Filed(AfterComplete(held, live, removable, at), at)
    ensures forall name :: AgreesAt(AfterComplete(held, live, removable, at), held, live, removable, name)
  {
    var entries := InNameOrder(live);
    var upserts, unsets := Mismatched(held, entries, at), AllStale(held, live, removable);
    MismatchedMembers(held, entries, at);
    StaleMembers(held, live, removable, NamesInOrder(held.Keys));
    UpsertedAllExact(held, upserts, at);
    var r := UpsertedAll(held, upserts);
    UnsetAllExact(r, unsets, at);
    forall name ensures AgreesAt(AfterComplete(held, live, removable, at), held, live, removable, name) {
      NamedByMismatch(held, live, at, name);
    }
  }

  lemma NamedByMismatch<V(!new)>(held: map<string, Binding<V>>, live: map<string, V>, at: SequenceNo, name: string)
    ensures Names(Mismatched(held, InNameOrder(live), at), name) <==> name in live && !Holds(held, name, live[name])
  {
    var entries := InNameOrder(live);
    var upserts := Mismatched(held, entries, at);
    MismatchedMembers(held, entries, at);
    if name in live && !Holds(held, name, live[name]) {
      assert (name, live[name]) in entries;
      assert Binding(name, live[name], at) in upserts;
    }
    if Names(upserts, name) {
      var i :| 0 <= i < |upserts| && upserts[i].name == name;
      assert upserts[i] in upserts;
      assert (upserts[i].name, upserts[i].content) in entries;
    }
  }

  /** No name has two different contents. */
  predicate Consistent<V(==)>(entries: seq<(string, V)>) {
    forall i, j | 0 <= i < j < |entries| && entries[i].0 == entries[j].0 :: entries[i] == entries[j]
  }

  predicate AllHeld<V(==)>(r: map<string, Binding<V>>, entries: seq<(string, V)>) {
    forall i | 0 <= i < |entries| :: Holds(r, entries[i].0, entries[i].1)
  }

  /** A partial list unsets nothing, and all of it ends up held exactly when it does not contradict itself. */
  lemma ExportedAgrees<V(!new)>(held: map<string, Binding<V>>, entries: seq<(string, V)>, at: SequenceNo)
    requires Filed(held, at)
    ensures var r := UpsertedAll(held, Mismatched(held, entries, at));
            && Filed(r, at)
            && PartlyAgrees(r, held, entries)
  {
    var upserts := Mismatched(held, entries, at);
    MismatchedMembers(held, entries, at);
    UpsertedAllExact(held, upserts, at);
    var r := UpsertedAll(held, upserts);
    if Consistent(entries) {
      forall i | 0 <= i < |entries| ensures Holds(r, entries[i].0, entries[i].1) {
        HeldWhenConsistent(held, entries, at, i);
      }
    }
    forall name | Names(upserts, name) ensures exists i | 0 <= i < |entries| :: entries[i].0 == name {
      var k :| 0 <= k < |upserts| && upserts[k].name == name;
      assert upserts[k] in upserts;
      var i :| 0 <= i < |entries| && entries[i] == (upserts[k].name, upserts[k].content);
    }
  }

  /** An entry whose name has no other content ends up held. */
  lemma HeldWhenConsistent<V(!new)>(held: map<string, Binding<V>>, entries: seq<(string, V)>, at: SequenceNo, i: nat)
    requires Filed(held, at) && i < |entries|
    requires forall j | 0 <= j < |entries| && entries[j].0 == entries[i].0 :: entries[j] == entries[i]
    ensures Holds(UpsertedAll(held, Mismatched(held, entries, at)), entries[i].0, entries[i].1)
  {
    var upserts := Mismatched(held, entries, at);
    var (name, content) := entries[i];
    MismatchedMembers(held, entries, at);
    UpsertedAllExact(held, upserts, at);
    var r := UpsertedAll(held, upserts);
    if !Holds(held, name, content) {
      assert Binding(name, content, at) in upserts;
      assert Names(upserts, name);
    }
    if Names(upserts, name) {
      assert r[name] in upserts && r[name].name == name;
      var j :| 0 <= j < |entries| && entries[j] == (r[name].name, r[name].content);
    }
  }

  /** Nothing is left to upsert exactly when all entries are held. */
  lemma NothingMismatched<V(!new)>(r: map<string, Binding<V>>, entries: seq<(string, V)>, at: SequenceNo)
    ensures Mismatched(r, entries, at) == [] <==> AllHeld(r, entries)
  {
    MismatchedMembers(r, entries, at);
    if Mismatched(r, entries, at) != [] {
      assert Mismatched(r, entries, at)[0] in Mismatched(r, entries, at);
    }
    if exists i | 0 <= i < |entries| :: !Holds(r, entries[i].0, entries[i].1) {
      var i :| 0 <= i < |entries| && !Holds(r, entries[i].0, entries[i].1);
      assert Binding(entries[i].0, entries[i].1, at) in Mismatched(r, entries, at);
    }
  }

  lemma LiveIsHeld<V(!new)>(r: map<string, Binding<V>>, held: map<string, Binding<V>>, live: map<string, V>,
                            removable: V -> bool)
    requires forall name :: AgreesAt(r, held, live, removable, name)
    ensures AllHeld(r, InNameOrder(live))
  {
    var entries := InNameOrder(live);
    forall i | 0 <= i < |entries| ensures Holds(r, entries[i].0, entries[i].1) {
      var (name, content) := entries[i];
      assert (name, content) in entries;
      assert AgreesAt(r, held, live, removable, name);
    }
  }

  lemma NothingStale<V(!new)>(r: map<string, Binding<V>>, held: map<string, Binding<V>>, live: map<string, V>,
                              removable: V -> bool)
    requires forall name :: AgreesAt(r, held, live, removable, name)
    ensures AllStale(r, live, removable) == []
  {
    StaleMembers(r, live, removable, NamesInOrder(r.Keys));
    var stale := AllStale(r, live, removable);
    assert stale == [] || stale[0] in stale;
    forall name ensures name !in stale {
      assert AgreesAt(r, held, live, removable, name);
    }
  }

  /** After agreement there is nothing more to do. */
  lemma CompleteSettles<V(!new)>(r: map<string, Binding<V>>, held: map<string, Binding<V>>, live: map<string, V>,
                                 removable: V -> bool, at: SequenceNo)
    requires forall name :: AgreesAt(r, held, live, removable, name)
    ensures Mismatched(r, InNameOrder(live), at) == [] && AllStale(r, live, removable) == []
  {
    LiveIsHeld(r, held, live, removable);
    NothingMismatched(r, InNameOrder(live), at);
    NothingStale(r, held, live, removable);
  }

  // The whole summary.

  lemma {:induction false} ApplyConcat(s: Summary, a: seq<Mutation>, b: seq<Mutation>, can: Capabilities)
    ensures ApplyAllLive(s, a + b, can) == ApplyAllLive(ApplyAllLive(s, a, can), b, can)
    decreases |a|
  {
    if a == [] {
      assert a + b == b;
    } else {
      assert (a + b)[1..] == a[1..] + b;
      ApplyConcat(ApplyLive(s, a[0], can), a[1..], b, can);
    }
  }

  lemma ApplyLast(s: Summary, batch: seq<Mutation>, can: Capabilities)
    requires batch != []
    ensures ApplyAllLive(s, batch, can)
         == ApplyLive(ApplyAllLive(s, batch[..|batch| - 1], can), batch[|batch| - 1], can)
  {
    ApplyConcat(s, batch[..|batch| - 1], [batch[|batch| - 1]], can);
    assert batch == batch[..|batch| - 1] + [batch[|batch| - 1]];
  }

  lemma ApplyPush(s: Summary, batch: seq<Mutation>, m: Mutation, can: Capabilities)
    ensures ApplyAllLive(s, batch + [m], can) == ApplyLive(ApplyAllLive(s, batch, can), m, can)
  {
    ApplyConcat(s, batch, [m], can);
  }

  predicate StampedAt<V>(bs: seq<Binding<V>>, at: SequenceNo) {
    forall i | 0 <= i < |bs| :: bs[i].observedAt == at
  }

  lemma {:induction false} VariableUpsertsApply(s: Summary, bs: seq<Binding<Variable>>, at: SequenceNo,
                                                can: Capabilities)
    requires s.lastSequenceNo == Some(at) && StampedAt(bs, at)
    requires forall i | 0 <= i < |bs| :: can.PersistsVariable(bs[i].content.exported)
    ensures ApplyAllLive(s, VariableUpserts(bs, at), can) == s.(variables := UpsertedAll(s.variables, bs))
  {
    if bs != [] {
      var front := bs[..|bs| - 1];
      VariableUpsertsApply(s, front, at, can);
      ApplyLast(s, VariableUpserts(bs, at), can);
      assert VariableUpserts(bs, at)[..|bs| - 1] == VariableUpserts(front, at);
    }
  }

  lemma {:induction false} VariableUnsetsApply(s: Summary, names: seq<string>, at: SequenceNo, can: Capabilities)
    requires s.lastSequenceNo == Some(at) && (names != [] ==> can.PersistsSomeVariables())
    ensures ApplyAllLive(s, VariableUnsets(names, at), can) == s.(variables := UnsetAll(s.variables, names, at))
  {
    if names != [] {
      var front := names[..|names| - 1];
      VariableUnsetsApply(s, front, at, can);
      ApplyLast(s, VariableUnsets(names, at), can);
      assert VariableUnsets(names, at)[..|names| - 1] == VariableUnsets(front, at);
    }
  }

  lemma {:induction false} AliasUpsertsApply(s: Summary, bs: seq<Binding<string>>, at: SequenceNo, can: Capabilities)
    requires s.lastSequenceNo == Some(at) && StampedAt(bs, at) && (bs != [] ==> can.aliases)
    ensures ApplyAllLive(s, AliasUpserts(bs, at), can) == s.(aliases := UpsertedAll(s.aliases, bs))
  {
    if bs != [] {
      var front := bs[..|bs| - 1];
      AliasUpsertsApply(s, front, at, can);
      ApplyLast(s, AliasUpserts(bs, at), can);
      assert AliasUpserts(bs, at)[..|bs| - 1] == AliasUpserts(front, at);
    }
  }

  lemma {:induction false} AliasUnsetsApply(s: Summary, names: seq<string>, at: SequenceNo, can: Capabilities)
    requires s.lastSequenceNo == Some(at) && (names != [] ==> can.aliases)
    ensures ApplyAllLive(s, AliasUnsets(names, at), can) == s.(aliases := UnsetAll(s.aliases, names, at))
  {
    if names != [] {
      var front := names[..|names| - 1];
      AliasUnsetsApply(s, front, at, can);
      ApplyLast(s, AliasUnsets(names, at), can);
      assert AliasUnsets(names, at)[..|names| - 1] == AliasUnsets(front, at);
    }
  }

  lemma {:induction false} FunctionUpsertsApply(s: Summary, bs: seq<Binding<string>>, at: SequenceNo, can: Capabilities)
    requires s.lastSequenceNo == Some(at) && StampedAt(bs, at) && (bs != [] ==> can.functions)
    ensures ApplyAllLive(s, FunctionUpserts(bs, at), can) == s.(functions := UpsertedAll(s.functions, bs))
  {
    if bs != [] {
      var front := bs[..|bs| - 1];
      FunctionUpsertsApply(s, front, at, can);
      ApplyLast(s, FunctionUpserts(bs, at), can);
      assert FunctionUpserts(bs, at)[..|bs| - 1] == FunctionUpserts(front, at);
    }
  }

  lemma {:induction false} FunctionUnsetsApply(s: Summary, names: seq<string>, at: SequenceNo, can: Capabilities)
    requires s.lastSequenceNo == Some(at) && (names != [] ==> can.functions)
    ensures ApplyAllLive(s, FunctionUnsets(names, at), can) == s.(functions := UnsetAll(s.functions, names, at))
  {
    if names != [] {
      var front := names[..|names| - 1];
      FunctionUnsetsApply(s, front, at, can);
      ApplyLast(s, FunctionUnsets(names, at), can);
      assert FunctionUnsets(names, at)[..|names| - 1] == FunctionUnsets(front, at);
    }
  }

  /** What a delta stamped `at` makes of a summary that has nothing newer. */
  function Outcome(s: Summary, delta: Delta, at: SequenceNo): Summary {
    s.(cwd := if delta.cwdAfter.Some? then Some(Cwd(delta.cwdAfter.value, at, RuntimeSnapshot)) else s.cwd,
       positionals := if delta.positionalsAfter.Some? then Some(Positionals(delta.positionalsAfter.value, at))
                      else s.positionals,
       positionalsUnknownAt := if delta.positionalsAfter.Some? then None else s.positionalsUnknownAt,
       variables := UnsetAll(UpsertedAll(s.variables, delta.upsertVariables), delta.unsetVariables, at),
       aliases := UnsetAll(UpsertedAll(s.aliases, delta.upsertAliases), delta.unsetAliases, at),
       functions := UnsetAll(UpsertedAll(s.functions, delta.upsertFunctions), delta.unsetFunctions, at))
  }

  /** The delta asks for nothing that the runtime does not persist. */
  predicate Permitted(delta: Delta, at: SequenceNo, can: Capabilities) {
    && (delta.cwdAfter.Some? ==> can.cwd)
    && (delta.positionalsAfter.Some? ==> can.positionals) && !delta.positionalsUnknownAfter
    && StampedAt(delta.upsertVariables, at) && StampedAt(delta.upsertAliases, at) && StampedAt(delta.upsertFunctions, at)
    && (forall i | 0 <= i < |delta.upsertVariables| :: can.PersistsVariable(delta.upsertVariables[i].content.exported))
    && (delta.unsetVariables != [] ==> can.PersistsSomeVariables())
    && (delta.upsertAliases != [] || delta.unsetAliases != [] ==> can.aliases)
    && (delta.upsertFunctions != [] || delta.unsetFunctions != [] ==> can.functions)
  }

  lemma DeltaApplies(s: Summary, delta: Delta, at: SequenceNo, can: Capabilities)
    requires Valid(s) && s.lastSequenceNo == Some(at) && Permitted(delta, at, can)
    ensures ApplyAllLive(s, SummaryMutations(delta, at), can) == Outcome(s, delta, at)
  {
    var parts := [CwdMutation(delta.cwdAfter, at),
                  PositionalMutation(delta.positionalsAfter, delta.positionalsUnknownAfter, at),
                  VariableUpserts(delta.upsertVariables, at), VariableUnsets(delta.unsetVariables, at),
                  AliasUpserts(delta.upsertAliases, at), AliasUnsets(delta.unsetAliases, at),
                  FunctionUpserts(delta.upsertFunctions, at), FunctionUnsets(delta.unsetFunctions, at)];
    var head := parts[0] + parts[1];
    var s2 := ApplyAllLive(s, head, can);
    assert s2 == s.(cwd := Outcome(s, delta, at).cwd, positionals := Outcome(s, delta, at).positionals,
                    positionalsUnknownAt := Outcome(s, delta, at).positionalsUnknownAt) by {
      HeadApplies(s, delta, at, can);
    }
    VariableUpsertsApply(s2, delta.upsertVariables, at, can);
    ApplyConcat(s, head, parts[2], can);
    var s3 := ApplyAllLive(s, head + parts[2], can);
    VariableUnsetsApply(s3, delta.unsetVariables, at, can);
    ApplyConcat(s, head + parts[2], parts[3], can);
    var s4 := ApplyAllLive(s, head + parts[2] + parts[3], can);
    AliasUpsertsApply(s4, delta.upsertAliases, at, can);
    ApplyConcat(s, head + parts[2] + parts[3], parts[4], can);
    var s5 := ApplyAllLive(s, head + parts[2] + parts[3] + parts[4], can);
    AliasUnsetsApply(s5, delta.unsetAliases, at, can);
    ApplyConcat(s, head + parts[2] + parts[3] + parts[4], parts[5], can);
    var s6 := ApplyAllLive(s, head + parts[2] + parts[3] + parts[4] + parts[5], can);
    FunctionUpsertsApply(s6, delta.upsertFunctions, at, can);
    ApplyConcat(s, head + parts[2] + parts[3] + parts[4] + parts[5], parts[6], can);
    var s7 := ApplyAllLive(s, head + parts[2] + parts[3] + parts[4] + parts[5] + parts[6], can);
    FunctionUnsetsApply(s7, delta.unsetFunctions, at, can);
    ApplyConcat(s, head + parts[2] + parts[3] + parts[4] + parts[5] + parts[6], parts[7], can);
  }

  lemma HeadApplies(s: Summary, delta: Delta, at: SequenceNo, can: Capabilities)
    requires Valid(s) && s.lastSequenceNo == Some(at) && Permitted(delta, at, can)
    ensures ApplyAllLive(s, CwdMutation(delta.cwdAfter, at)
                            + PositionalMutation(delta.positionalsAfter, delta.positionalsUnknownAfter, at), can)
         == s.(cwd := Outcome(s, delta, at).cwd, positionals := Outcome(s, delta, at).positionals,
               positionalsUnknownAt := Outcome(s, delta, at).positionalsUnknownAt)
  {
    ApplyConcat(s, CwdMutation(delta.cwdAfter, at),
                PositionalMutation(delta.positionalsAfter, delta.positionalsUnknownAfter, at), can);
  }

  lemma {:induction false} LastWinsMembers<V(!new)>(entries: seq<(string, V)>)
    ensures forall name | name in LastWins(entries) :: (name, LastWins(entries)[name]) in entries
    ensures forall i | 0 <= i < |entries| :: entries[i].0 in LastWins(entries)
  {
    if entries != [] {
      var n := |entries| - 1;
      LastWinsMembers(entries[..n]);
      assert forall e :: e in entries <==> e in entries[..n] || e == entries[n];
    }
  }

  lemma {:induction false} PersistedEntriesMembers(variables: seq<ShellVariable>, previous: Option<PreviousCommand>,
                                                   can: Capabilities)
    ensures forall e | e in PersistedEntries(variables, previous, can) :: can.PersistsVariable(e.1.exported)
  {
    if variables != [] {
      PersistedEntriesMembers(variables[..|variables| - 1], previous, can);
    }
  }

  lemma {:induction false} ExportedEntriesMembers(variables: seq<ShellVariable>, previous: Option<PreviousCommand>)
    ensures forall e | e in ExportedEntries(variables, previous) :: e.1.exported
  {
    if variables != [] {
      ExportedEntriesMembers(variables[..|variables| - 1], previous);
    }
  }

  lemma LivePermitted(held: map<string, Binding<Variable>>, before: Snapshot, at: SequenceNo,
                      previous: Option<PreviousCommand>, can: Capabilities)
    ensures var upserts := Mismatched(held, InNameOrder(LiveVariables(before, previous, can)), at);
            StampedAt(upserts, at)
            && forall i | 0 <= i < |upserts| :: can.PersistsVariable(upserts[i].content.exported)
  {
    var live := LiveVariables(before, previous, can);
    var upserts := Mismatched(held, InNameOrder(live), at);
    MismatchedMembers(held, InNameOrder(live), at);
    forall i | 0 <= i < |upserts| ensures can.PersistsVariable(upserts[i].content.exported) {
      assert upserts[i] in upserts && (upserts[i].name, upserts[i].content) in InNameOrder(live);
      LiveIsPersisted(before, previous, can, upserts[i].name);
    }
  }

  lemma LiveIsPersisted(before: Snapshot, previous: Option<PreviousCommand>, can: Capabilities, name: string)
    requires name in LiveVariables(before, previous, can)
    ensures can.PersistsVariable(LiveVariables(before, previous, can)[name].exported)
  {
    LastWinsMembers(PersistedEntries(before.variables, previous, can));
    PersistedEntriesMembers(before.variables, previous, can);
  }

  lemma ExportedPermitted(held: map<string, Binding<Variable>>, before: Snapshot, at: SequenceNo,
                          previous: Option<PreviousCommand>, can: Capabilities)
    requires can.exportedEnvironment
    ensures var upserts := Mismatched(held, ExportedEntries(before.variables, previous), at);
            StampedAt(upserts, at)
            && forall i | 0 <= i < |upserts| :: can.PersistsVariable(upserts[i].content.exported)
  {
    var upserts := Mismatched(held, ExportedEntries(before.variables, previous), at);
    assert forall i | 0 <= i < |upserts| :: upserts[i] in upserts;
    ExportedEntriesMembers(before.variables, previous);
    MismatchedMembers(held, ExportedEntries(before.variables, previous), at);
  }

  lemma VariablesPermitted(s: Summary, before: Snapshot, at: SequenceNo, previous: Option<PreviousCommand>,
                           can: Capabilities)
    ensures var upserts := ReconcileVariables(s, before, at, previous, can).0;
            StampedAt(upserts, at)
            && forall i | 0 <= i < |upserts| :: can.PersistsVariable(upserts[i].content.exported)
  {
    LivePermitted(s.variables, before, at, previous, can);
    if can.exportedEnvironment {
      ExportedPermitted(s.variables, before, at, previous, can);
    }
  }

  lemma BodiesPermitted(held: map<string, Binding<string>>, bodies: seq<ShellBody>, knowledge: Knowledge,
                        persisted: bool, at: SequenceNo)
    ensures StampedAt(ReconcileBodies(held, bodies, knowledge, persisted, at).0, at)
  {
    MismatchedMembers(held, InNameOrder(LastWins(BodyEntries(bodies))), at);
  }

  lemma ReconcilePermitted(s: Summary, before: Snapshot, at: SequenceNo, previous: Option<PreviousCommand>,
                           can: Capabilities)
    ensures Permitted(Reconcile(s, before, at, previous, can), at, can)
  {
    VariablesPermitted(s, before, at, previous, can);
    BodiesPermitted(s.aliases, before.aliases, before.aliasKnowledge, can.aliases, at);
    BodiesPermitted(s.functions, before.functions, before.functionKnowledge, can.functions, at);
  }

  function Reconciled(s: Summary, before: Snapshot, at: SequenceNo, previous: Option<PreviousCommand>,
                      can: Capabilities): Summary {
    ApplyAllLive(s, SummaryMutations(Reconcile(s, before, at, previous, can), at), can)
  }

  // Agreement, component by component.

  ghost predicate VariablesAgree(r: map<string, Binding<Variable>>, held: map<string, Binding<Variable>>,
                                 before: Snapshot, previous: Option<PreviousCommand>, can: Capabilities) {
    if can.PersistsSomeVariables() && before.variableKnowledge == Complete then
      forall name :: AgreesAt(r, held, LiveVariables(before, previous, can), Persisted(can), name)
    else if can.exportedEnvironment && before.variableKnowledge == ExportedOnly then
      PartlyAgrees(r, held, ExportedEntries(before.variables, previous))
    else r == held
  }

  /** All entries are held unless they contradict each other, nothing is unset, and other names stay. */
  ghost predicate PartlyAgrees<V>(r: map<string, Binding<V>>, held: map<string, Binding<V>>,
                                  entries: seq<(string, V)>) {
    && (AllHeld(r, entries) <==> Consistent(entries))
    && (forall name | name in held :: name in r)
    && (forall name | name in r && (forall i | 0 <= i < |entries| :: entries[i].0 != name) ::
          name in held && r[name] == held[name])
  }

  ghost predicate BodiesAgree(r: map<string, Binding<string>>, held: map<string, Binding<string>>,
                              bodies: seq<ShellBody>, knowledge: Knowledge, persisted: bool) {
    if persisted && knowledge == Complete
    then forall name :: AgreesAt(r, held, LastWins(BodyEntries(bodies)), Anything(), name)
    else r == held
  }

  predicate PositionalsAgree(r: Summary, s: Summary, before: Snapshot, can: Capabilities) {
    if can.positionals && before.positionalKnowledge == Complete
    then r.positionals.Some? && r.positionals.value.values == before.positionals
    else r.positionals == s.positionals && r.positionalsUnknownAt == s.positionalsUnknownAt
  }

  /** The observed directory is taken over unless static analysis of the previous command has the say. */
  predicate CwdAgrees(r: Summary, s: Summary, before: Snapshot, at: SequenceNo, previous: Option<PreviousCommand>,
                      can: Capabilities) {
    if !can.cwd then r.cwd == s.cwd
    else if s.cwd.Some? && s.cwd.value.path != before.cwd && s.cwd.value.source == StaticAnalysis && previous.Some?
            && (s.cwd.value.observedAt == at || !previous.value.mayUpdateCwd)
    then r.cwd == s.cwd
    else r.cwd.Some? && r.cwd.value.path == before.cwd
  }

  lemma VariablesReconciled(s: Summary, before: Snapshot, at: SequenceNo, previous: Option<PreviousCommand>,
                            can: Capabilities)
    requires Filed(s.variables, at)
    ensures var (upserts, unsets) := ReconcileVariables(s, before, at, previous, can);
            var r := UnsetAll(UpsertedAll(s.variables, upserts), unsets, at);
            Filed(r, at) && VariablesAgree(r, s.variables, before, previous, can)
  {
    if can.PersistsSomeVariables() && before.variableKnowledge == Complete {
      CompleteAgrees(s.variables, LiveVariables(before, previous, can), Persisted(can), at);
    } else if can.exportedEnvironment && before.variableKnowledge == ExportedOnly {
      ExportedAgrees(s.variables, ExportedEntries(before.variables, previous), at);
    }
  }

  lemma BodiesReconciled(held: map<string, Binding<string>>, bodies: seq<ShellBody>, knowledge: Knowledge,
                         persisted: bool, at: SequenceNo)
    requires Filed(held, at)
    ensures var (upserts, unsets) := ReconcileBodies(held, bodies, knowledge, persisted, at);
            var r := UnsetAll(UpsertedAll(held, upserts), unsets, at);
            Filed(r, at) && BodiesAgree(r, held, bodies, knowledge, persisted)
  {
    if persisted && knowledge == Complete {
      CompleteAgrees(held, LastWins(BodyEntries(bodies)), Anything(), at);
    }
  }

  /**
   * Reconciling and applying the delta makes every persisted and known component agree with the snapshot, leaves
   * every other component alone, and moves no sequence number.
   */
  lemma ReconcileAgrees(s: Summary, before: Snapshot, at: SequenceNo, previous: Option<PreviousCommand>,
                        can: Capabilities)
    requires Valid(s) && s.lastSequenceNo == Some(at)
    ensures var r := Reconciled(s, before, at, previous, can);
            && Valid(r) && r.lastSequenceNo == Some(at)
            && VariablesAgree(r.variables, s.variables, before, previous, can)
            && BodiesAgree(r.aliases, s.aliases, before.aliases, before.aliasKnowledge, can.aliases)
            && BodiesAgree(r.functions, s.functions, before.functions, before.functionKnowledge, can.functions)
            && PositionalsAgree(r, s, before, can) && CwdAgrees(r, s, before, at, previous, can)
  {
    var delta := Reconcile(s, before, at, previous, can);
    ReconcilePermitted(s, before, at, previous, can);
    DeltaApplies(s, delta, at, can);
    VariablesReconciled(s, before, at, previous, can);
    BodiesReconciled(s.aliases, before.aliases, before.aliasKnowledge, can.aliases, at);
    BodiesReconciled(s.functions, before.functions, before.functionKnowledge, can.functions, at);
  }

  lemma ReconciledCwd(s: Summary, before: Snapshot, at: SequenceNo, previous: Option<PreviousCommand>,
                      can: Capabilities)
    requires Valid(s) && s.lastSequenceNo == Some(at)
    ensures Reconciled(s, before, at, previous, can).cwd
         == match ReconcileCwd(s, before, at, previous, can)
            case Some(path) => Some(Cwd(path, at, RuntimeSnapshot))
            case None => s.cwd
  {
    ReconcilePermitted(s, before, at, previous, can);
    DeltaApplies(s, Reconcile(s, before, at, previous, can), at, can);
  }

  /** The snapshot does not give one exported variable two different contents, where only those are known. */
  predicate ContradictionFree(before: Snapshot, previous: Option<PreviousCommand>, can: Capabilities) {
    can.exportedEnvironment && before.variableKnowledge == ExportedOnly
    ==> Consistent(ExportedEntries(before.variables, previous))
  }

  /** Reconciling again finds nothing to do, exactly when a partial snapshot does not contradict itself. */
  lemma ReconcileIsIdempotent(s: Summary, before: Snapshot, at: SequenceNo, previous: Option<PreviousCommand>,
                              can: Capabilities)
    requires Valid(s) && s.lastSequenceNo == Some(at)
    ensures Reconcile(Reconciled(s, before, at, previous, can), before, at, previous, can) == NO_CHANGE
            <==> ContradictionFree(before, previous, can)
  {
    var r := Reconciled(s, before, at, previous, can);
    ReconcileAgrees(s, before, at, previous, can);
    VariablesSettle(r, s, before, at, previous, can);
    BodiesSettle(r.aliases, s.aliases, before.aliases, before.aliasKnowledge, can.aliases, at);
    BodiesSettle(r.functions, s.functions, before.functions, before.functionKnowledge, can.functions, at);
  }

  lemma VariablesSettle(r: Summary, s: Summary, before: Snapshot, at: SequenceNo, previous: Option<PreviousCommand>,
                        can: Capabilities)
    requires VariablesAgree(r.variables, s.variables, before, previous, can)
    ensures ReconcileVariables(r, before, at, previous, can) == ([], []) <==> ContradictionFree(before, previous, can)
  {
    if can.PersistsSomeVariables() && before.variableKnowledge == Complete {
      CompleteSettles(r.variables, s.variables, LiveVariables(before, previous, can), Persisted(can), at);
    }
    NothingMismatched(r.variables, ExportedEntries(before.variables, previous), at);
  }

  lemma BodiesSettle(r: map<string, Binding<string>>, held: map<string, Binding<string>>, bodies: seq<ShellBody>,
                     knowledge: Knowledge, persisted: bool, at: SequenceNo)
    requires BodiesAgree(r, held, bodies, knowledge, persisted)
    ensures ReconcileBodies(r, bodies, knowledge, persisted, at) == ([], [])
  {
    if persisted && knowledge == Complete {
      CompleteSettles(r, held, LastWins(BodyEntries(bodies)), Anything(), at);
    }
  }
}
