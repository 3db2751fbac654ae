/** A session as it is kept: a graph object and a summary, changed by commits. */
module SessionStates {
  import opened Wrappers
  import opened GraphTypes
  import GraphIndex
  import opened SessionGraphs
  import opened SessionSummary
  import opened Mutations
  import opened Batches
  import opened Reconciliation
  import opened Sessions

  /** Nodes first: put when absent, or replace. */
  method ApplySteps(graph: SessionGraph, steps: seq<Step>)
    requires graph.Valid()
    modifies graph
    ensures graph.Valid() && graph.Value() == Mutations.ApplySteps(old(graph.Value()), steps)
  {
    ghost var before := graph.Value();
    for i := 0 to |steps|
      invariant graph.Valid() && Mutations.ApplySteps(graph.Value(), steps[i..]) == Mutations.ApplySteps(before, steps)
    {
      assert steps[i..][1..] == steps[i + 1..];
      GraphIndex.WellIndexedInRange(graph.Value());
      GraphIndex.AddNodeKeepsIndexes(graph.Value(), steps[i].node);
      if !(steps[i].Put? && steps[i].node.id in graph.nodes) {
        var _ := graph.AddNode(steps[i].node);
      }
    }
  }

  /** Then edges, up to the first that is refused. */
  method ApplyEdges(graph: SessionGraph, edges: seq<Edge>) returns (error: Option<GraphIndex.GraphError>)
    modifies graph
    ensures error.None? ==> Mutations.ApplyEdges(old(graph.Value()), edges) == Success(graph.Value())
    ensures error.Some? ==> Mutations.ApplyEdges(old(graph.Value()), edges) == Failure(error.value)
  {
    ghost var before := graph.Value();
    for i := 0 to |edges|
      invariant Mutations.ApplyEdges(graph.Value(), edges[i..]) == Mutations.ApplyEdges(before, edges)
    {
      assert edges[i..][1..] == edges[i + 1..];
      var added := graph.AddEdge(edges[i]);
      if added.Failure? {
        return Some(added.error);
      }
    }
    error := None;
  }

  /** All or nothing. */
  method ApplyGraphBatch(graph: SessionGraph, commandId: NodeId, batch: seq<Mutation>)
    returns (error: Option<BatchError>)
    requires graph.Valid()
    modifies graph
    ensures graph.Valid()
    ensures match ApplyBatch(old(graph.Value()), commandId, batch)
            case Success(g) => error.None? && graph.Value() == g
            case Failure(e) => error == Some(e) && graph.Value() == old(graph.Value())
  {
    BatchIsAtomic(graph.Value(), commandId, batch);
    error := ValidateBatch(graph.nodes, commandId, None, batch);
    if error.None? {
      ApplySteps(graph, AllSteps(batch));
      var refused := ApplyEdges(graph, AllEdges(batch, ImplicitSource(commandId, batch)));
      assert refused.None?;
    }
  }

  class SessionState {
    const graph: SessionGraph
    var summary: Summary

    ghost function Value(): Session
      reads this, graph
    {
      Session(graph.Value(), summary)
    }

    ghost predicate Valid()
      reads this, graph
    {
      graph.Valid()
    }

    constructor ()
      ensures Valid() && fresh(graph) && Value() == NEW_SESSION
    {
      graph := new SessionGraph();
      summary := SessionSummary.EMPTY;
    }

    method SeedSummary(before: Snapshot, at: SequenceNo, can: Capabilities)
      modifies `summary
      ensures summary == Seed(old(summary), before, at, can)
    {
      summary := SeedCwd(summary, before, at, can);
      if StopsEarly(before, can) {
        return;
      }
      match before.variableKnowledge {
        case Complete => SeedEntries(PersistedEntries(before.variables, None, can), at);
        case ExportedOnly => SeedEntries(ExportedEntries(before.variables, None), at);
        case Unknown =>
      }
      if can.aliases && before.aliasKnowledge == Complete {
        SeedAliases(before.aliases, at);
      }
      if can.functions && before.functionKnowledge == Complete {
        SeedFunctions(before.functions, at);
      }
      summary := SeedPositionals(summary, before, at, can);
    }

    method SeedEntries(entries: seq<(string, Variable)>, at: SequenceNo)
      modifies `summary
      ensures summary == UpsertEntries(old(summary), entries, at)
    {
      for i := 0 to |entries|
        invariant summary == UpsertEntries(old(summary), entries[..i], at)
      {
        assert entries[..i + 1][..i] == entries[..i];
        summary := UpsertVariable(summary, Binding(entries[i].0, entries[i].1, at));
      }
      assert entries[..|entries|] == entries;
    }

    method SeedAliases(aliases: seq<ShellBody>, at: SequenceNo)
      modifies `summary
      ensures summary == UpsertAliases(old(summary), aliases, at)
    {
      for i := 0 to |aliases|
        invariant summary == UpsertAliases(old(summary), aliases[..i], at)
      {
        assert aliases[..i + 1][..i] == aliases[..i];
        summary := UpsertAlias(summary, Binding(aliases[i].name, aliases[i].body, at));
      }
      assert aliases[..|aliases|] == aliases;
    }

    method SeedFunctions(functions: seq<ShellBody>, at: SequenceNo)
      modifies `summary
      ensures summary == UpsertFunctions(old(summary), functions, at)
    {
      for i := 0 to |functions|
        invariant summary == UpsertFunctions(old(summary), functions[..i], at)
      {
        assert functions[..i + 1][..i] == functions[..i];
        summary := UpsertFunction(summary, Binding(functions[i].name, functions[i].body, at));
      }
      assert functions[..|functions|] == functions;
    }

    method SeedShellStateBefore(request: Request)
      modifies `summary
      ensures summary == SeedBefore(old(summary), request)
    {
      if summary.lastSequenceNo.None? {
        SeedSummary(request.before, 0, request.can);
      } else if request.can.cwd && summary.cwd.None? {
        summary := SetCwd(summary, Cwd(request.before.cwd, request.sequenceNo, RuntimeSnapshot));
      }
    }

    method Observe(request: Request)
      modifies `summary
      ensures summary == ObserveRequest(old(summary), request)
    {
      SeedShellStateBefore(request);
      summary := SessionSummary.Observe(summary, request.sequenceNo);
    }

    method ApplyLiveSummary(batch: seq<Mutation>, can: Capabilities)
      modifies `summary
      ensures summary == ApplyAllLive(old(summary), batch, can)
    {
      for i := 0 to |batch|
        invariant ApplyAllLive(summary, batch[i..], can) == ApplyAllLive(old(summary), batch, can)
      {
        assert batch[i..][1..] == batch[i + 1..];
        summary := ApplyLive(summary, batch[i], can);
      }
    }

    /** An error leaves what was done before it. */
    method CommitAllowedRequest(batch: seq<Mutation>, request: Request) returns (error: Option<CommitError>)
      requires Valid()
      modifies this, graph
      ensures Valid()
      ensures (Value(), error) == CommitAllowed(old(Value()), batch, request)
    {
      SeedShellStateBefore(request);
      var anchor := AnchorNode(request);
      if anchor.id in graph.nodes {
        return Some(DuplicateCommandNode(anchor.id));
      }
      var invalid := ValidateBatch(graph.nodes, anchor.id, Some(anchor.id), batch);
      if invalid.Some? {
        return Some(MutationGraph(invalid.value));
      }
      GraphIndex.WellIndexedInRange(graph.Value());
      GraphIndex.AddNodeKeepsIndexes(graph.Value(), anchor);
      var replaced := graph.AddNode(anchor);
      assert replaced.None?;
      var failed := ApplyGraphBatch(graph, anchor.id, batch);
      if failed.Some? {
        return Some(MutationGraph(failed.value));
      }
      ApplyLiveSummary(batch, request.can);
      Observe(request);
      error := None;
    }

    /** For changes seen after the fact; an error changes nothing. */
    method CommitObservedShellStateMutations(sessionId: string, n: SequenceNo, can: Capabilities, batch: seq<Mutation>)
      returns (error: Option<CommitError>)
      requires Valid()
      modifies this, graph
      ensures Valid()
      ensures (Value(), error) == CommitObserved(old(Value()), sessionId, n, can, batch)
    {
      var commandId := ObservedCommandId(graph.nodes, sessionId, n);
      var provided := FirstProvidedAnchor(batch);
      var anchorId := if commandId in graph.nodes || provided.None? then commandId else provided.value;
      if commandId !in graph.nodes && AnyRequiresAnchor(batch) && provided.None? {
        return Some(MissingGraphAnchor(commandId));
      }
      if AnyTouchesGraph(batch) {
        var invalid := ValidateBatch(graph.nodes, anchorId, Some(anchorId), batch);
        if invalid.Some? {
          return Some(MutationGraph(invalid.value));
        }
        var failed := ApplyGraphBatch(graph, anchorId, batch);
        if failed.Some? {
          return Some(MutationGraph(failed.value));
        }
      }
      ApplyLiveSummary(batch, can);
      error := None;
    }
  }
}
