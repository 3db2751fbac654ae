/** Nodes and edges of a session graph, and their persisted form. */
module GraphTypes {
  import opened Wrappers

  type NodeId = string
  type SequenceNo = nat

  /** A payload that the graph stores and gives back but never looks into. */
  type Payload = string

  datatype PathResolution =
    | Concrete(path: string)
    | ToolConvention(path: string, convention: string)
    | DerivedConcrete(path: string, basis: Payload, rule: Payload)
    | BoundedPathSet(roots: seq<string>, mayEscape: bool)
    | DerivedUnresolved(basis: Payload, rule: Payload, reason: Payload)
    | MissingBinding(variableName: string)
    | UnsupportedDynamicBinding(variableName: string, repr: string)
    | UnsupportedDynamicText(text: string)
    | HomeUnavailable(text: string)
  {
    function ConcretePath(): Option<string> {
      match this
      case Concrete(path) => Some(path)
      case ToolConvention(path, _) => Some(path)
      case DerivedConcrete(path, _, _) => Some(path)
      case _ => None
    }
  }

  datatype Artifact =
    | PathContent(path: string, contentVersion: Option<nat>)
    | VariableValue(name: string, value: string, valueKind: Payload, exported: bool, version: nat)
    | OtherArtifact(payload: Payload)

  datatype NodeKind =
    | RequestAnchor(sessionId: string, sequenceNo: SequenceNo, rawText: string, cwdBefore: string, shellKind: Payload)
    | CommandInvocation(sessionId: string, sequenceNo: SequenceNo, rawText: string, cwdBefore: string, shellKind: Payload)
    | ShellStateReconciliationAnchor(sequenceNo: SequenceNo)
    | DerivedInvocation(rootSequenceNo: SequenceNo, origin: Payload, index: nat, rawText: string,
                        commandName: Option<string>, shellKind: Payload, depth: nat)
    | NestedPayload(rootSequenceNo: SequenceNo, rootIndex: nat, recordId: nat, depth: nat, language: string,
                    source: string, origin: Payload, input: Payload, resolution: Payload)
    | PathFact(pathResolution: PathResolution, role: Payload, purpose: Option<Payload>, slotName: string,
               normalizedCommandName: Option<string>, metadataMutation: Option<Payload>)
    | MutationScopeFact(scopeResolution: Payload, operation: Payload, slotName: string,
                        normalizedCommandName: Option<string>)
    | ProvenanceArtifact(artifact: Artifact)
    | ExecutionSemantics(semantics: Payload)
    | VariableBindingIntent(name: string, runtimeInputSource: Option<Payload>)
    | EnvBinding(name: string, valueRepr: Option<string>, exported: bool, version: nat)
    | AliasBinding(name: string, body: string, version: nat)
    | AliasMutation(name: string, action: Payload, version: nat)
    | FunctionBinding(name: string, bodyRepr: string, version: nat)
    | DirectoryState(path: string, version: nat)
    | CapabilityEvidence(capability: string, evidenceSource: string)
    | FlowEvidence(flowKind: string, sourceKind: string, sinkKind: string)
    | DecisionRecord(decision: Payload, reasonSummary: string)

  datatype GraphNode = GraphNode(id: NodeId, kind: NodeKind)

  type Nodes = map<NodeId, GraphNode>

  datatype EdgeKind =
    | Defines | Reads | Writes | MutatesMetadata | Targets | Consumes | Produces | Dispatches | ExpandsTo
    | DependsOn | FlowsTo | ChangesCwdTo | InheritsFrom | TriggeredBy

  datatype Edge = Edge(source: NodeId, target: NodeId, kind: EdgeKind, semantics: Option<Payload>)

  datatype NodeKindSnapshot =
    | RequestAnchorSnapshot(sessionId: string, sequenceNo: SequenceNo, rawText: string, cwdBefore: string, shellKind: Payload)
    | CommandInvocationSnapshot(sessionId: string, sequenceNo: SequenceNo, rawText: string, cwdBefore: string, shellKind: Payload)
    | ShellStateReconciliationAnchorSnapshot(sequenceNo: SequenceNo)
    | DerivedInvocationSnapshot(rootSequenceNo: SequenceNo, origin: Payload, index: nat, rawText: string,
                                commandName: Option<string>, shellKind: Payload, depth: nat)
    | NestedPayloadSnapshot(rootSequenceNo: SequenceNo, rootIndex: nat, recordId: nat, depth: nat, language: string,
                            source: string, origin: Payload, input: Payload, resolution: Payload)
    | PathFactSnapshot(pathResolution: PathResolution, role: Payload, purpose: Option<Payload>, slotName: string,
                       normalizedCommandName: Option<string>, metadataMutation: Option<Payload>)
    | MutationScopeFactSnapshot(scopeResolution: Payload, operation: Payload, slotName: string,
                                normalizedCommandName: Option<string>)
    | ProvenanceArtifactSnapshot(artifact: Artifact)
    | ExecutionSemanticsSnapshot(semantics: Payload)
    | VariableBindingIntentSnapshot(name: string, runtimeInputSource: Option<Payload>)
    | EnvBindingSnapshot(name: string, valueRepr: Option<string>, exported: bool, version: nat)
    | AliasBindingSnapshot(name: string, body: string, version: nat)
    | AliasMutationSnapshot(name: string, action: Payload, version: nat)
    | FunctionBindingSnapshot(name: string, bodyRepr: string, version: nat)
    | DirectoryStateSnapshot(path: string, version: nat)
    | CapabilityEvidenceSnapshot(capability: string, evidenceSource: string)
    | FlowEvidenceSnapshot(flowKind: string, sourceKind: string, sinkKind: string)
    | DecisionRecordSnapshot(decision: Payload, reasonSummary: string)

  datatype NodeSnapshot = NodeSnapshot(id: string, kind: NodeKindSnapshot)

  datatype EdgeKindSnapshot =
    | DefinesSnapshot | ReadsSnapshot | WritesSnapshot | MutatesMetadataSnapshot | TargetsSnapshot
    | ConsumesSnapshot | ProducesSnapshot | DispatchesSnapshot | ExpandsToSnapshot | DependsOnSnapshot
    | FlowsToSnapshot | ChangesCwdToSnapshot | InheritsFromSnapshot | TriggeredBySnapshot

  datatype EdgeSnapshot =
    EdgeSnapshot(source: string, target: string, kind: EdgeKindSnapshot, semantics: Option<Payload>)

  datatype GraphSnapshot = GraphSnapshot(nodes: seq<NodeSnapshot>, edges: seq<EdgeSnapshot>)

  function SaveNode(node: GraphNode): NodeSnapshot {
    NodeSnapshot(node.id,
      match node.kind
      case RequestAnchor(s, n, t, c, k) => RequestAnchorSnapshot(s, n, t, c, k)
      case CommandInvocation(s, n, t, c, k) => CommandInvocationSnapshot(s, n, t, c, k)
      case ShellStateReconciliationAnchor(n) => ShellStateReconciliationAnchorSnapshot(n)
      case DerivedInvocation(n, o, i, t, c, k, d) => DerivedInvocationSnapshot(n, o, i, t, c, k, d)
      case NestedPayload(n, i, r, d, l, s, o, p, v) => NestedPayloadSnapshot(n, i, r, d, l, s, o, p, v)
      case PathFact(p, r, u, s, c, m) => PathFactSnapshot(p, r, u, s, c, m)
      case MutationScopeFact(r, o, s, c) => MutationScopeFactSnapshot(r, o, s, c)
      case ProvenanceArtifact(a) => ProvenanceArtifactSnapshot(a)
      case ExecutionSemantics(s) => ExecutionSemanticsSnapshot(s)
      case VariableBindingIntent(n, r) => VariableBindingIntentSnapshot(n, r)
      case EnvBinding(n, v, e, w) => EnvBindingSnapshot(n, v, e, w)
      case AliasBinding(n, b, v) => AliasBindingSnapshot(n, b, v)
      case AliasMutation(n, a, v) => AliasMutationSnapshot(n, a, v)
      case FunctionBinding(n, b, v) => FunctionBindingSnapshot(n, b, v)
      case DirectoryState(p, v) => DirectoryStateSnapshot(p, v)
      case CapabilityEvidence(c, e) => CapabilityEvidenceSnapshot(c, e)
      case FlowEvidence(f, s, t) => FlowEvidenceSnapshot(f, s, t)
      case DecisionRecord(d, r) => DecisionRecordSnapshot(d, r))
  }

  function LoadNode(node: NodeSnapshot): GraphNode {
    GraphNode(node.id,
      match node.kind
      case RequestAnchorSnapshot(s, n, t, c, k) => RequestAnchor(s, n, t, c, k)
      case CommandInvocationSnapshot(s, n, t, c, k) => CommandInvocation(s, n, t, c, k)
      case ShellStateReconciliationAnchorSnapshot(n) => ShellStateReconciliationAnchor(n)
      case DerivedInvocationSnapshot(n, o, i, t, c, k, d) => DerivedInvocation(n, o, i, t, c, k, d)
      case NestedPayloadSnapshot(n, i, r, d, l, s, o, p, v) => NestedPayload(n, i, r, d, l, s, o, p, v)
      case PathFactSnapshot(p, r, u, s, c, m) => PathFact(p, r, u, s, c, m)
      case MutationScopeFactSnapshot(r, o, s, c) => MutationScopeFact(r, o, s, c)
      case ProvenanceArtifactSnapshot(a) => ProvenanceArtifact(a)
      case ExecutionSemanticsSnapshot(s) => ExecutionSemantics(s)
      case VariableBindingIntentSnapshot(n, r) => VariableBindingIntent(n, r)
      case EnvBindingSnapshot(n, v, e, w) => EnvBinding(n, v, e, w)
      case AliasBindingSnapshot(n, b, v) => AliasBinding(n, b, v)
      case AliasMutationSnapshot(n, a, v) => AliasMutation(n, a, v)
      case FunctionBindingSnapshot(n, b, v) => FunctionBinding(n, b, v)
      case DirectoryStateSnapshot(p, v) => DirectoryState(p, v)
      case CapabilityEvidenceSnapshot(c, e) => CapabilityEvidence(c, e)
      case FlowEvidenceSnapshot(f, s, t) => FlowEvidence(f, s, t)
      case DecisionRecordSnapshot(d, r) => DecisionRecord(d, r))
  }

  function SaveEdgeKind(kind: EdgeKind): EdgeKindSnapshot {
    match kind
    case Defines => DefinesSnapshot
    case Reads => ReadsSnapshot
    case Writes => WritesSnapshot
    case MutatesMetadata => MutatesMetadataSnapshot
    case Targets => TargetsSnapshot
    case Consumes => ConsumesSnapshot
    case Produces => ProducesSnapshot
    case Dispatches => DispatchesSnapshot
    case ExpandsTo => ExpandsToSnapshot
    case DependsOn => DependsOnSnapshot
    case FlowsTo => FlowsToSnapshot
    case ChangesCwdTo => ChangesCwdToSnapshot
    case InheritsFrom => InheritsFromSnapshot
    case TriggeredBy => TriggeredBySnapshot
  }

  function LoadEdgeKind(kind: EdgeKindSnapshot): EdgeKind {
    match kind
    case DefinesSnapshot => Defines
    case ReadsSnapshot => Reads
    case WritesSnapshot => Writes
    case MutatesMetadataSnapshot => MutatesMetadata
    case TargetsSnapshot => Targets
    case ConsumesSnapshot => Consumes
    case ProducesSnapshot => Produces
    case DispatchesSnapshot => Dispatches
    case ExpandsToSnapshot => ExpandsTo
    case DependsOnSnapshot => DependsOn
    case FlowsToSnapshot => FlowsTo
    case ChangesCwdToSnapshot => ChangesCwdTo
    case InheritsFromSnapshot => InheritsFrom
    case TriggeredBySnapshot => TriggeredBy
  }

  function SaveEdge(edge: Edge): EdgeSnapshot {
    EdgeSnapshot(edge.source, edge.target, SaveEdgeKind(edge.kind), edge.semantics)
  }
}
