/** What a session remembers of its shell, and the setters that keep the newest observation of each thing. */
module SessionSummary {
  import opened Wrappers
  import opened GraphTypes

  datatype ValueKind = ScalarKind | PathKind

  datatype Value =
    | ExactScalar(text: string)
    | RuntimeProduced(text: string, kind: ValueKind)
    | OpaqueDynamic(repr: string)
    | RuntimeInput(source: Payload, capture: Payload)

  datatype Variable = Variable(value: Value, exported: bool)

  /** A variable, alias or function: aliases and functions have a body for content. */
  datatype Binding<V> = Binding(name: string, content: V, observedAt: SequenceNo)

  datatype CwdSource = RuntimeSnapshot | StaticAnalysis

  datatype Cwd = Cwd(path: string, observedAt: SequenceNo, source: CwdSource)

  datatype Positionals = Positionals(values: seq<Value>, observedAt: SequenceNo)

  datatype Summary = Summary(
    lastSequenceNo: Option<SequenceNo>,
    variables: map<string, Binding<Variable>>,
    aliases: map<string, Binding<string>>,
    functions: map<string, Binding<string>>,
    cwd: Option<Cwd>,
    positionals: Option<Positionals>,
    positionalsUnknownAt: Option<SequenceNo>)

  const EMPTY: Summary := Summary(None, map[], map[], map[], None, None, None)

  datatype Capabilities = Capabilities(
    cwd: bool,
    variables: bool,
    exportedEnvironment: bool,
    aliases: bool,
    functions: bool,
    positionals: bool)
  {
    predicate PersistsVariable(exported: bool) {
      variables || (exported && exportedEnvironment)
    }

    predicate PersistsSomeVariables() {
      variables || exportedEnvironment
    }
  }

  /** An observation is ignored when a newer one is held. */
  function Upserted<V>(held: map<string, Binding<V>>, binding: Binding<V>): map<string, Binding<V>> {
    if binding.name in held && binding.observedAt < held[binding.name].observedAt then held
    else held[binding.name := binding]
  }

  function Unset<V>(held: map<string, Binding<V>>, name: string, observedAt: SequenceNo): map<string, Binding<V>> {
    if name in held && held[name].observedAt <= observedAt then held - {name} else held
  }

  function Later(last: Option<SequenceNo>, sequenceNo: SequenceNo): Option<SequenceNo> {
    if last.None? || last.value < sequenceNo then Some(sequenceNo) else last
  }

  function Observe(s: Summary, sequenceNo: SequenceNo): Summary {
    s.(lastSequenceNo := Later(s.lastSequenceNo, sequenceNo))
  }

  function UpsertVariable(s: Summary, binding: Binding<Variable>): Summary {
    Observe(s.(variables := Upserted(s.variables, binding)), binding.observedAt)
  }

  function UnsetVariable(s: Summary, name: string, observedAt: SequenceNo): Summary {
    Observe(s.(variables := Unset(s.variables, name, observedAt)), observedAt)
  }

  function UpsertAlias(s: Summary, binding: Binding<string>): Summary {
    Observe(s.(aliases := Upserted(s.aliases, binding)), binding.observedAt)
  }

  function UnsetAlias(s: Summary, name: string, observedAt: SequenceNo): Summary {
    Observe(s.(aliases := Unset(s.aliases, name, observedAt)), observedAt)
  }

  function UpsertFunction(s: Summary, binding: Binding<string>): Summary {
    Observe(s.(functions := Upserted(s.functions, binding)), binding.observedAt)
  }

  function UnsetFunction(s: Summary, name: string, observedAt: SequenceNo): Summary {
    Observe(s.(functions := Unset(s.functions, name, observedAt)), observedAt)
  }

  function SetCwd(s: Summary, cwd: Cwd): Summary {
    var replace := s.cwd.None? || s.cwd.value.observedAt <= cwd.observedAt;
    Observe(s.(cwd := if replace then Some(cwd) else s.cwd), cwd.observedAt)
  }

  function PositionalsObservedAt(s: Summary): Option<SequenceNo> {
    if s.positionals.Some? then Some(s.positionals.value.observedAt) else s.positionalsUnknownAt
  }

  predicate ReplacesPositionals(s: Summary, observedAt: SequenceNo) {
    var existing := PositionalsObservedAt(s);
    existing.None? || existing.value <= observedAt
  }

  function SetPositionals(s: Summary, values: seq<Value>, observedAt: SequenceNo): Summary {
    Observe(if ReplacesPositionals(s, observedAt)
            then s.(positionals := Some(Positionals(values, observedAt)), positionalsUnknownAt := None)
            else s, observedAt)
  }

  function ForgetPositionals(s: Summary, observedAt: SequenceNo): Summary {
    Observe(if ReplacesPositionals(s, observedAt)
            then s.(positionals := None, positionalsUnknownAt := Some(observedAt))
            else s, observedAt)
  }

  // What every sequence of setters keeps.

  /** Each binding is filed under its own name and was observed no later than `last`. */
  predicate Filed<V>(held: map<string, Binding<V>>, last: SequenceNo) {
    forall name | name in held :: held[name].name == name && held[name].observedAt <= last
  }

  /** Nothing was observed after the last sequence number; before any, nothing is known. */
  predicate Valid(s: Summary) {
    match s.lastSequenceNo
    case None => s == EMPTY
    case Some(last) =>
      && Filed(s.variables, last) && Filed(s.aliases, last) && Filed(s.functions, last)
      && (s.cwd.Some? ==> s.cwd.value.observedAt <= last)
      && (s.positionals.Some? ==> s.positionals.value.observedAt <= last)
      && (s.positionalsUnknownAt.Some? ==> s.positionalsUnknownAt.value <= last)
  }
}
