/** From a raw config to the policy in force: what a user may set, and the floor that nothing lowers. */
module ConfigNormalize {
  import opened Wrappers
  import opened Ordered
  import Text

  datatype RuleFamily =
    | InteractiveControl | Path | ResolveGap | SemanticExpansion | SessionIntegrity | HostSafety | RepositorySafety | Taint

  datatype RuleId =
    | CommandParseFailure | InteractiveEscapeSurface | CwdOutsideWorkspaceRoot | OutsideWorkspaceMutation
    | ProcessControl | OutsideWorkspaceScriptSource | OutsideWorkspaceStartupConfig | MissingCommandName
    | SelectionError | NoProfile | NestedPayloadExpansion | NonMonotonicSequence | CatastrophicFileSystemDelete
    | CatastrophicShellProcessExplosion | CatastrophicPathMetadataMutation | CatastrophicPathContentOverwrite
    | CatastrophicPathRelocation | CatastrophicPartitionLayoutMutation | CatastrophicPartitionTableSession
    | CatastrophicPartitionTableStateMutation | CatastrophicPartitionTableMutation | GitTrackedWorktreeDiscard
    | GitUntrackedWorktreeDelete | GitForcedWorktreeSwitch | GitTrackedPathDelete | GitSavedStateDestroy
    | GitLocalRefDestroy | TaintedExecution | SensitiveDataExfiltration | ImportedPackageExecution

  datatype RawAction = RawAllow | RawNeedApproval | RawDeny

  datatype RuleAction = Observe | NeedApproval | Deny

  datatype Entry = Entry(action: RuleAction, trustSets: seq<string>)

  datatype Scope = ScriptExecute | StartupConfig

  datatype RawTrustedPath = RawTrustedPath(root: string, scopes: set<Scope>)

  datatype TrustSet = TrustSet(root: string, scopes: set<Scope>)

  datatype RawConfig = RawConfig(
    version: nat,
    rules: map<RuleId, RawAction>,
    families: map<RuleFamily, RawAction>,
    unknownDefault: RawAction,
    unknownOverrides: map<string, RawAction>,
    trustedPaths: seq<RawTrustedPath>,
    maxNestedParseDepth: nat)

  datatype Policy = Policy(
    families: map<RuleFamily, Entry>,
    rules: map<RuleId, Entry>,
    unknownDefault: RuleAction,
    unknownCommands: map<string, RuleAction>,
    trustSets: map<string, TrustSet>,
    maxNestedParseDepth: nat)

  datatype ConfigError =
    | UnsupportedVersion(actual: nat)
    | DuplicateUnknownCommand(name: string, first: string, second: string)
    | EmptyTrustedPathRoot(index: nat)
    | RelativeTrustedPathRoot(index: nat, root: string)
    | EmptyTrustedPathScopes(index: nat)
    | HardDenyFloorCannotBeLowered(rule: RuleId, action: RawAction)
    | HardDenyAnalysisDepthCannotBeLowered(actual: nat, minimum: nat)

  const CURRENT_VERSION := 1
  const MINIMUM_DEPTH := 3
  const HARD_DENY_FLOOR_RULES: seq<RuleId> := [CatastrophicFileSystemDelete, CatastrophicShellProcessExplosion]
  const TRUSTED_PATH_RULES: seq<RuleId> := [OutsideWorkspaceScriptSource, OutsideWorkspaceStartupConfig]

  function Family(rule: RuleId): RuleFamily {
    match rule
    case CommandParseFailure | MissingCommandName | SelectionError | NoProfile => ResolveGap
    case InteractiveEscapeSurface => InteractiveControl
    case CwdOutsideWorkspaceRoot | OutsideWorkspaceMutation | OutsideWorkspaceScriptSource
      | OutsideWorkspaceStartupConfig => Path
    case NestedPayloadExpansion => SemanticExpansion
    case NonMonotonicSequence => SessionIntegrity
    case GitTrackedWorktreeDiscard | GitUntrackedWorktreeDelete | GitForcedWorktreeSwitch | GitTrackedPathDelete
      | GitSavedStateDestroy | GitLocalRefDestroy => RepositorySafety
    case TaintedExecution | SensitiveDataExfiltration | ImportedPackageExecution => Taint
    case _ => HostSafety
  }

  function DefaultAction(rule: RuleId): RuleAction {
    match rule
    case InteractiveEscapeSurface | OutsideWorkspaceScriptSource | OutsideWorkspaceStartupConfig | NoProfile
      | NestedPayloadExpansion | ImportedPackageExecution => Observe
    case NonMonotonicSequence | CatastrophicFileSystemDelete | CatastrophicShellProcessExplosion => Deny
    case _ => NeedApproval
  }

  function NormalizeAction(action: RawAction): RuleAction {
    match action
    case RawAllow => Observe
    case RawNeedApproval => NeedApproval
    case RawDeny => Deny
  }

  /** The rule's own entry, else its family's, else the default. */
  function ActionFor(families: map<RuleFamily, Entry>, rules: map<RuleId, Entry>, rule: RuleId): RuleAction {
    if rule in rules then rules[rule].action
    else if Family(rule) in families then families[Family(rule)].action
    else DefaultAction(rule)
  }

  function TrustedSetsFor(families: map<RuleFamily, Entry>, rules: map<RuleId, Entry>, rule: RuleId): seq<string> {
    if rule in rules then rules[rule].trustSets
    else if Family(rule) in families then families[Family(rule)].trustSets
    else []
  }

  /** What the user asked for a rule, floor and trusted paths aside. */
  function Asked(raw: RawConfig, rule: RuleId): RuleAction {
    if rule in raw.rules then NormalizeAction(raw.rules[rule])
    else if Family(rule) in raw.families then NormalizeAction(raw.families[Family(rule)])
    else DefaultAction(rule)
  }

  // When a config is acceptable.

  predicate RespectsFloor(rules: map<RuleId, RawAction>) {
    forall i | 0 <= i < |HARD_DENY_FLOOR_RULES| ::
      HARD_DENY_FLOOR_RULES[i] in rules ==> rules[HARD_DENY_FLOOR_RULES[i]] == RawDeny
  }

  ghost predicate InjectiveOn(norm: string -> string, keys: set<string>) {
    forall a, b | a in keys && b in keys && norm(a) == norm(b) :: a == b
  }

  predicate Rooted(root: string) {
    "/" <= root || root == "~" || "~/" <= root
  }

  predicate ValidPath(path: RawTrustedPath) {
    Rooted(Text.Trim(path.root)) && path.scopes != {}
  }

  ghost predicate Acceptable(raw: RawConfig, norm: string -> string) {
    && raw.version == CURRENT_VERSION && RespectsFloor(raw.rules) && raw.maxNestedParseDepth >= MINIMUM_DEPTH
    && InjectiveOn(norm, raw.unknownOverrides.Keys)
    && forall i | 0 <= i < |raw.trustedPaths| :: ValidPath(raw.trustedPaths[i])
  }

  method ValidateHardDenyOverrides(rules: map<RuleId, RawAction>) returns (error: Option<ConfigError>)
    ensures error.None? <==> RespectsFloor(rules)
    ensures error.Some? ==>
              exists rule | rule in HARD_DENY_FLOOR_RULES && rule in rules && rules[rule] != RawDeny ::
                error.value == HardDenyFloorCannotBeLowered(rule, rules[rule])
  {
    for i := 0 to |HARD_DENY_FLOOR_RULES|
      invariant forall j | 0 <= j < i ::
          HARD_DENY_FLOOR_RULES[j] in rules ==> rules[HARD_DENY_FLOOR_RULES[j]] == RawDeny
    {
      var rule := HARD_DENY_FLOOR_RULES[i];
      if rule in rules && rules[rule] != RawDeny {
        return Some(HardDenyFloorCannotBeLowered(rule, rules[rule]));
      }
    }
    error := None;
  }

  method EnforceHardDenyFloor(rules: map<RuleId, Entry>) returns (r: map<RuleId, Entry>)
    ensures forall rule | rule in HARD_DENY_FLOOR_RULES :: rule in r && r[rule] == Entry(Deny, [])
    ensures forall rule | rule !in HARD_DENY_FLOOR_RULES ::
              (rule in r <==> rule in rules) && (rule in r ==> r[rule] == rules[rule])
  {
    r := rules;
    for i := 0 to |HARD_DENY_FLOOR_RULES|
      invariant forall j | 0 <= j < i :: HARD_DENY_FLOOR_RULES[j] in r && r[HARD_DENY_FLOOR_RULES[j]] == Entry(Deny, [])
      invariant forall rule | rule !in HARD_DENY_FLOOR_RULES ::
          (rule in r <==> rule in rules) && (rule in r ==> r[rule] == rules[rule])
    {
      r := r[HARD_DENY_FLOOR_RULES[i] := Entry(Deny, [])];
    }
  }

  /** The normalized overrides hold each key's action under the key's normal form, and nothing else. */
  ghost predicate Overrides(commands: map<string, RuleAction>, raw: map<string, RawAction>, keys: seq<string>,
                            norm: string -> string) {
    && (forall k | k in keys && k in raw :: norm(k) in commands && commands[norm(k)] == NormalizeAction(raw[k]))
    && (forall n | n in commands :: exists k | k in keys :: norm(k) == n)
  }

  /** Which key each normal form came from, of the keys so far. */
  ghost predicate SourcesOf(sources: map<string, string>, keys: seq<string>, norm: string -> string) {
    && (forall k | k in keys :: norm(k) in sources && sources[norm(k)] == k)
    && (forall n | n in sources :: sources[n] in keys && norm(sources[n]) == n)
  }

  lemma SourcesInject(sources: map<string, string>, keys: seq<string>, all: set<string>, norm: string -> string)
    requires SourcesOf(sources, keys, norm) && forall k | k in all :: k in keys
    ensures InjectiveOn(norm, all)
  {
    forall a, b | a in all && b in all && norm(a) == norm(b) ensures a == b {
      assert sources[norm(a)] == a && sources[norm(b)] == b;
    }
  }

  /** The keys of a sorted map. */
  function KeysInOrder(all: set<string>): (keys: seq<string>)
    ensures Sorted(keys, Text.StrLess) && forall k :: k in keys <==> k in all
  {
    StringOrder();
    Ascending(all, Text.StrLess)
  }

  /** The error names two keys with one normal form, of which the second is the first to collide with an earlier one. */
  ghost predicate FirstCollision(error: ConfigError, keys: set<string>, norm: string -> string) {
    && error.DuplicateUnknownCommand?
    && error.first in keys && error.second in keys && Text.StrLess(error.first, error.second)
    && norm(error.first) == error.name == norm(error.second)
    && InjectiveOn(norm, (set k | k in keys && Text.StrLess(k, error.second)))
  }

  /** The normalized overrides so far, and which key each came from. */
  type Collection = Result<(map<string, RuleAction>, map<string, string>), ConfigError>

  function CollectOne(r: Collection, overrides: map<string, RawAction>, key: string,
                      norm: string -> string): Collection {
    match r
    case Failure(_) => r
    case Success((commands, sources)) =>
      if norm(key) in sources then Failure(DuplicateUnknownCommand(norm(key), sources[norm(key)], key))
      else
        var action := if key in overrides then NormalizeAction(overrides[key]) else NeedApproval;
        Success((commands[norm(key) := action], sources[norm(key) := key]))
  }

  /** What going through the keys builds; a failure is final. */
  function Collected(overrides: map<string, RawAction>, keys: seq<string>, norm: string -> string): Collection {
    if keys == [] then Success((map[], map[]))
    else CollectOne(Collected(overrides, keys[..|keys| - 1], norm), overrides, keys[|keys| - 1], norm)
  }

  lemma CollectedNext(overrides: map<string, RawAction>, keys: seq<string>, i: nat, norm: string -> string)
    requires i < |keys|
    ensures Collected(overrides, keys[..i + 1], norm)
         == CollectOne(Collected(overrides, keys[..i], norm), overrides, keys[i], norm)
  {
    assert keys[..i + 1][..i] == keys[..i];
  }

  /** Goes through the keys and stops at the first whose normal form an earlier one has. */
  method CollectOverrides(overrides: map<string, RawAction>, keys: seq<string>, norm: string -> string)
    returns (r: Result<map<string, RuleAction>, ConfigError>)
    requires forall i | 0 <= i < |keys| :: keys[i] in overrides
    ensures match Collected(overrides, keys, norm)
            case Success((commands, _)) => r == Success(commands)
            case Failure(error) => r == Failure(error)
  {
    var commands: map<string, RuleAction>, sources: map<string, string> := map[], map[];
    for i := 0 to |keys|
      invariant Collected(overrides, keys[..i], norm) == Success((commands, sources))
    {
      CollectedNext(overrides, keys, i, norm);
      var name := norm(keys[i]);
      if name in sources {
        CollisionStays(overrides, keys, i + 1, norm);
        return Failure(DuplicateUnknownCommand(name, sources[name], keys[i]));
      }
      sources := sources[name := keys[i]];
      commands := commands[name := NormalizeAction(overrides[keys[i]])];
    }
    assert keys[..|keys|] == keys;
    r := Success(commands);
  }

  /** It succeeds exactly when normalization is injective on the keys, and else names the first collision. */
  method NormalizeUnknownCommands(overrides: map<string, RawAction>, norm: string -> string)
    returns (r: Result<map<string, RuleAction>, ConfigError>)
    ensures r.Success? <==> InjectiveOn(norm, overrides.Keys)
    ensures r.Success? ==> Overrides(r.value, overrides, KeysInOrder(overrides.Keys), norm)
    ensures r.Failure? ==> FirstCollision(r.error, overrides.Keys, norm)
  {
    UnknownCommandsExactly(overrides, norm);
    var keys := KeysInOrder(overrides.Keys);
    assert forall i | 0 <= i < |keys| :: keys[i] in keys;
    r := CollectOverrides(overrides, keys, norm);
  }

  lemma {:induction false} CollisionStays(overrides: map<string, RawAction>, keys: seq<string>, i: nat,
                                          norm: string -> string)
    requires i <= |keys| && Collected(overrides, keys[..i], norm).Failure?
    ensures Collected(overrides, keys, norm) == Collected(overrides, keys[..i], norm)
    decreases |keys|
  {
    if i == |keys| {
      assert keys[..i] == keys;
    } else {
      assert keys[..|keys| - 1][..i] == keys[..i];
      CollisionStays(overrides, keys[..|keys| - 1], i, norm);
    }
  }

  /** Some key's normal form is that of an earlier key, and the error says so. */
  ghost predicate CollisionAt(error: ConfigError, keys: seq<string>, i: nat, sources: map<string, string>,
                              norm: string -> string) {
    && i < |keys| && SourcesOf(sources, keys[..i], norm) && norm(keys[i]) in sources
    && error == DuplicateUnknownCommand(norm(keys[i]), sources[norm(keys[i])], keys[i])
  }

  /** While there is no collision, the results are as they should be; the first collision is with an earlier key. */
  ghost predicate Right(r: Collection, overrides: map<string, RawAction>, keys: seq<string>, norm: string -> string) {
    match r
    case Success((commands, sources)) =>
      SourcesOf(sources, keys, norm) && Overrides(commands, overrides, keys, norm) && sources.Keys == commands.Keys
    case Failure(error) => exists i: nat, sources :: CollisionAt(error, keys, i, sources, norm)
  }

  lemma RightOne(r: Collection, overrides: map<string, RawAction>, keys: seq<string>, key: string,
                 norm: string -> string)
    requires Right(r, overrides, keys, norm) && key in overrides
    ensures Right(CollectOne(r, overrides, key, norm), overrides, keys + [key], norm)
  {
    var more := keys + [key];
    assert more[..|keys|] == keys;
    if r.Failure? {
      var i: nat, sources :| CollisionAt(r.error, keys, i, sources, norm);
      assert more[..i] == keys[..i];
      assert CollisionAt(r.error, more, i, sources, norm);
    } else if norm(key) in r.value.1 {
      assert CollisionAt(DuplicateUnknownCommand(norm(key), r.value.1[norm(key)], key), more, |keys|, r.value.1, norm);
    } else {
      OneMoreKey(r.value.1, r.value.0, overrides, more, |keys|, norm);
      assert more[..|keys| + 1] == more;
    }
  }

  lemma {:induction false} CollectedIsRight(overrides: map<string, RawAction>, keys: seq<string>,
                                            norm: string -> string)
    requires forall k | k in keys :: k in overrides
    ensures Right(Collected(overrides, keys, norm), overrides, keys, norm)
  {
    if keys != [] {
      var front, last := keys[..|keys| - 1], keys[|keys| - 1];
      assert keys == front + [last] && last in keys;
      CollectedIsRight(overrides, front, norm);
      RightOne(Collected(overrides, front, norm), overrides, front, last, norm);
    }
  }

  lemma OneMoreKey(sources: map<string, string>, commands: map<string, RuleAction>, overrides: map<string, RawAction>,
                   keys: seq<string>, i: nat, norm: string -> string)
    requires i < |keys| && keys[i] in overrides && norm(keys[i]) !in sources && sources.Keys == commands.Keys
    requires SourcesOf(sources, keys[..i], norm) && Overrides(commands, overrides, keys[..i], norm)
    ensures SourcesOf(sources[norm(keys[i]) := keys[i]], keys[..i + 1], norm)
    ensures Overrides(commands[norm(keys[i]) := NormalizeAction(overrides[keys[i]])], overrides, keys[..i + 1], norm)
  {
    assert keys[..i + 1] == keys[..i] + [keys[i]];
  }

  lemma UnknownCommandsExactly(overrides: map<string, RawAction>, norm: string -> string)
    ensures var r := Collected(overrides, KeysInOrder(overrides.Keys), norm);
            && (r.Success? <==> InjectiveOn(norm, overrides.Keys))
            && (r.Success? ==> Overrides(r.value.0, overrides, KeysInOrder(overrides.Keys), norm))
            && (r.Failure? ==> FirstCollision(r.error, overrides.Keys, norm))
  {
    var keys := KeysInOrder(overrides.Keys);
    CollectedIsRight(overrides, keys, norm);
    match Collected(overrides, keys, norm) {
      case Success((commands, sources)) => SourcesInject(sources, keys, overrides.Keys, norm);
      case Failure(error) =>
        var i: nat, sources :| CollisionAt(error, keys, i, sources, norm);
        CollisionFound(overrides.Keys, error, i, sources, norm);
    }
  }

  lemma CollisionFound(all: set<string>, error: ConfigError, i: nat, sources: map<string, string>,
                       norm: string -> string)
    requires CollisionAt(error, KeysInOrder(all), i, sources, norm)
    ensures !InjectiveOn(norm, all) && FirstCollision(error, all, norm)
  {
    var keys := KeysInOrder(all);
    var key := keys[i];
    assert key in keys && error.first in keys[..i];
    forall k ensures k in keys[..i] <==> k in all && Text.StrLess(k, key) {
      EarlierKey(all, i, k);
    }
    SourcesInject(sources, keys[..i], (set k | k in all && Text.StrLess(k, error.second)), norm);
    Text.StrLessIrreflexive(key);
  }

  /** The earlier keys in the list are the smaller ones. */
  lemma EarlierKey(all: set<string>, i: nat, k: string)
    requires i < |KeysInOrder(all)|
    ensures k in KeysInOrder(all)[..i] <==> k in all && Text.StrLess(k, KeysInOrder(all)[i])
  {
    var keys := KeysInOrder(all);
    if k in all {
      var j :| 0 <= j < |keys| && keys[j] == k;
      Text.StrLessIrreflexive(k);
      assert j < i ==> k == keys[..i][j] && Text.StrLess(k, keys[i]);
      assert j > i ==> Text.StrLess(keys[i], k);
      if j > i && Text.StrLess(k, keys[i]) {
        Text.StrLessTransitive(k, keys[i], k);
      }
    }
  }

  function TrustSetName(index: nat): string { "user_trusted_path_" + Text.Decimal(index) }

  lemma NamesDiffer(i: nat, j: nat)
    requires TrustSetName(i) == TrustSetName(j)
    ensures i == j
  {
    assert TrustSetName(i)[|"user_trusted_path_"|..] == Text.Decimal(i);
    assert TrustSetName(j)[|"user_trusted_path_"|..] == Text.Decimal(j);
    Text.DecimalInjective(i, j);
  }

  function Trusted(path: RawTrustedPath): TrustSet { TrustSet(Text.Trim(path.root), path.scopes) }

  /** One set for each path, under its own name. */
  ghost predicate SetsOf(sets: map<string, TrustSet>, paths: seq<RawTrustedPath>) {
    && (forall i | 0 <= i < |paths| :: TrustSetName(i) in sets && sets[TrustSetName(i)] == Trusted(paths[i]))
    && (forall name | name in sets :: exists i | 0 <= i < |paths| :: name == TrustSetName(i))
  }

  function PathError(path: RawTrustedPath, index: nat): Option<ConfigError> {
    if Text.Trim(path.root) == "" then Some(EmptyTrustedPathRoot(index))
    else if !Rooted(Text.Trim(path.root)) then Some(RelativeTrustedPathRoot(index, path.root))
    else if path.scopes == {} then Some(EmptyTrustedPathScopes(index))
    else None
  }

  /** The first path, in list order, that is not valid. */
  function FirstPathError(paths: seq<RawTrustedPath>): Option<ConfigError> {
    if paths == [] then None
    else
      var i := |paths| - 1;
      var earlier := FirstPathError(paths[..i]);
      if earlier.Some? then earlier else PathError(paths[i], i)
  }

  lemma {:induction false} FirstPathErrorExactly(paths: seq<RawTrustedPath>)
    ensures FirstPathError(paths).None? <==> forall i | 0 <= i < |paths| :: ValidPath(paths[i])
  {
    if paths != [] {
      FirstPathErrorExactly(paths[..|paths| - 1]);
      assert PathError(paths[|paths| - 1], |paths| - 1).None? <==> ValidPath(paths[|paths| - 1]);
    }
  }

  lemma {:induction false} FirstErrorStays(paths: seq<RawTrustedPath>, i: nat)
    requires i <= |paths| && FirstPathError(paths[..i]).Some?
    ensures FirstPathError(paths) == FirstPathError(paths[..i])
    decreases |paths|
  {
    if i == |paths| {
      assert paths[..i] == paths;
    } else {
      assert paths[..|paths| - 1][..i] == paths[..i];
      FirstErrorStays(paths[..|paths| - 1], i);
    }
  }

  /** Fails with the first invalid path, else makes one set of each path. */
  method NormalizeTrustedPaths(paths: seq<RawTrustedPath>) returns (r: Result<map<string, TrustSet>, ConfigError>)
    ensures r.Success? ==> FirstPathError(paths).None? && SetsOf(r.value, paths)
    ensures r.Failure? ==> FirstPathError(paths) == Some(r.error)
  {
    var sets: map<string, TrustSet> := map[];
    for i := 0 to |paths|
      invariant SetsOf(sets, paths[..i]) && FirstPathError(paths[..i]).None?
    {
      assert paths[..i + 1][..i] == paths[..i];
      var error := PathError(paths[i], i);
      if error.Some? {
        FirstErrorStays(paths, i + 1);
        return Failure(error.value);
      }
      OneMoreSet(sets, paths, i);
      sets := sets[TrustSetName(i) := Trusted(paths[i])];
    }
    assert paths[..|paths|] == paths;
    r := Success(sets);
  }

  lemma OneMoreSet(sets: map<string, TrustSet>, paths: seq<RawTrustedPath>, i: nat)
    requires i < |paths| && SetsOf(sets, paths[..i])
    ensures SetsOf(sets[TrustSetName(i) := Trusted(paths[i])], paths[..i + 1])
  {
    var more := sets[TrustSetName(i) := Trusted(paths[i])];
    forall j | 0 <= j < i + 1 ensures TrustSetName(j) in more && more[TrustSetName(j)] == Trusted(paths[j]) {
      assert j < i ==> paths[..i][j] == paths[j];
      if TrustSetName(j) == TrustSetName(i) {
        NamesDiffer(i, j);
      }
    }
    forall name | name in more ensures exists j | 0 <= j < i + 1 :: name == TrustSetName(j) {
      if name != TrustSetName(i) {
        assert name in sets;
      }
    }
  }

  /** Trusted paths are hung on two rules; a rule without an entry gets one with the action that it has anyway. */
  method AttachTrustedPaths(rules: map<RuleId, Entry>, families: map<RuleFamily, Entry>, trustSets: seq<string>)
    returns (r: map<RuleId, Entry>)
    ensures forall rule :: ActionFor(families, r, rule) == ActionFor(families, rules, rule)
    ensures forall rule | rule in TRUSTED_PATH_RULES && trustSets != [] :: TrustedSetsFor(families, r, rule) == trustSets
    ensures forall rule | rule !in TRUSTED_PATH_RULES || trustSets == [] ::
              TrustedSetsFor(families, r, rule) == TrustedSetsFor(families, rules, rule)
  {
    r := rules;
    if trustSets == [] {
      return;
    }
    for i := 0 to |TRUSTED_PATH_RULES|
      invariant forall rule :: ActionFor(families, r, rule) == ActionFor(families, rules, rule)
      invariant forall j | 0 <= j < i :: TrustedSetsFor(families, r, TRUSTED_PATH_RULES[j]) == trustSets
      invariant forall rule | rule !in TRUSTED_PATH_RULES ::
          TrustedSetsFor(families, r, rule) == TrustedSetsFor(families, rules, rule)
    {
      var rule := TRUSTED_PATH_RULES[i];
      var fallback := if Family(rule) in families then families[Family(rule)].action else DefaultAction(rule);
      var entry := if rule in r then r[rule] else Entry(fallback, []);
      r := r[rule := entry.(trustSets := trustSets)];
    }
  }

  /** The names of the trusted sets, in the order of a sorted map. */
  function SetNames(sets: map<string, TrustSet>): seq<string> {
    KeysInOrder(sets.Keys)
  }

  /** In a normalized config the floor holds, every other rule does what was asked, and trust is where it belongs. */
  ghost predicate InForce(policy: Policy, raw: RawConfig, norm: string -> string) {
    && (forall rule :: ActionFor(policy.families, policy.rules, rule) ==
          if rule in HARD_DENY_FLOOR_RULES then Deny else Asked(raw, rule))
    && (forall rule :: TrustedSetsFor(policy.families, policy.rules, rule) ==
          if rule in TRUSTED_PATH_RULES then SetNames(policy.trustSets) else [])
    && SetsOf(policy.trustSets, raw.trustedPaths)
    && Overrides(policy.unknownCommands, raw.unknownOverrides, KeysInOrder(raw.unknownOverrides.Keys), norm)
    && policy.unknownDefault == NormalizeAction(raw.unknownDefault)
    && policy.maxNestedParseDepth == raw.maxNestedParseDepth >= MINIMUM_DEPTH
  }

  // The same, told rule by rule.

  /** What a raw action means. */
  predicate Means(raw: RawAction, action: RuleAction) {
    (raw == RawAllow && action == Observe) || (raw == RawNeedApproval && action == NeedApproval)
    || (raw == RawDeny && action == Deny)
  }

  predicate InFamily(rule: RuleId, family: RuleFamily) {
    match family
    case InteractiveControl => rule == InteractiveEscapeSurface
    case Path =>
      rule in {CwdOutsideWorkspaceRoot, OutsideWorkspaceMutation, OutsideWorkspaceScriptSource,
               OutsideWorkspaceStartupConfig}
    case ResolveGap => rule in {CommandParseFailure, MissingCommandName, SelectionError, NoProfile}
    case SemanticExpansion => rule == NestedPayloadExpansion
    case SessionIntegrity => rule == NonMonotonicSequence
    case HostSafety =>
      rule in {ProcessControl, CatastrophicFileSystemDelete, CatastrophicShellProcessExplosion,
               CatastrophicPathMetadataMutation, CatastrophicPathContentOverwrite, CatastrophicPathRelocation,
               CatastrophicPartitionLayoutMutation, CatastrophicPartitionTableSession,
               CatastrophicPartitionTableStateMutation, CatastrophicPartitionTableMutation}
    case RepositorySafety =>
      rule in {GitTrackedWorktreeDiscard, GitUntrackedWorktreeDelete, GitForcedWorktreeSwitch, GitTrackedPathDelete,
               GitSavedStateDestroy, GitLocalRefDestroy}
    case Taint => rule in {TaintedExecution, SensitiveDataExfiltration, ImportedPackageExecution}
  }

  predicate OnTheFloor(rule: RuleId) {
    rule == CatastrophicFileSystemDelete || rule == CatastrophicShellProcessExplosion
  }

  /** What a rule does when nothing is said of it or its family. */
  predicate ByDefault(rule: RuleId, action: RuleAction) {
    match action
    case Deny => rule == NonMonotonicSequence || OnTheFloor(rule)
    case Observe =>
      rule in {InteractiveEscapeSurface, OutsideWorkspaceScriptSource, OutsideWorkspaceStartupConfig, NoProfile,
               NestedPayloadExpansion, ImportedPackageExecution}
    case NeedApproval =>
      rule !in {NonMonotonicSequence, CatastrophicFileSystemDelete, CatastrophicShellProcessExplosion,
                InteractiveEscapeSurface, OutsideWorkspaceScriptSource, OutsideWorkspaceStartupConfig, NoProfile,
                NestedPayloadExpansion, ImportedPackageExecution}
  }

  /** The floor denies; any other rule does what is said of it, else of its family, else what it does by default. */
  predicate DoesAsSaid(raw: RawConfig, rule: RuleId, action: RuleAction) {
    if OnTheFloor(rule) then action == Deny
    else if rule in raw.rules then Means(raw.rules[rule], action)
    else if exists family | family in raw.families :: InFamily(rule, family) then
      forall family | family in raw.families && InFamily(rule, family) :: Means(raw.families[family], action)
    else ByDefault(rule, action)
  }

  /** Trusted are the sets made of the trusted paths, by the two rules about what is sourced from outside. */
  ghost predicate TrustsAsSaid(policy: Policy, raw: RawConfig) {
    && (forall rule :: TrustedSetsFor(policy.families, policy.rules, rule) ==
          if rule in {OutsideWorkspaceScriptSource, OutsideWorkspaceStartupConfig} then SetNames(policy.trustSets)
          else [])
    && (forall i | 0 <= i < |raw.trustedPaths| ::
          var name, path := "user_trusted_path_" + Text.Decimal(i), raw.trustedPaths[i];
          name in policy.trustSets && policy.trustSets[name] == TrustSet(Text.Trim(path.root), path.scopes))
    && (forall name | name in policy.trustSets ::
          exists i | 0 <= i < |raw.trustedPaths| :: name == "user_trusted_path_" + Text.Decimal(i))
  }

  ghost predicate AsSaid(policy: Policy, raw: RawConfig, norm: string -> string) {
    && (forall rule :: DoesAsSaid(raw, rule, ActionFor(policy.families, policy.rules, rule)))
    && TrustsAsSaid(policy, raw)
    && Means(raw.unknownDefault, policy.unknownDefault)
    && (forall key | key in raw.unknownOverrides ::
          norm(key) in policy.unknownCommands && Means(raw.unknownOverrides[key], policy.unknownCommands[norm(key)]))
    && policy.maxNestedParseDepth == raw.maxNestedParseDepth >= 3
  }

  /** A path's first fault: no root, else a root that is neither absolute nor in the home directory, else no scope. */
  predicate PathFault(error: ConfigError, path: RawTrustedPath, i: nat) {
    var root := Text.Trim(path.root);
    if root == "" then error == EmptyTrustedPathRoot(i)
    else if root[0] != '/' && root != "~" && !(|root| >= 2 && root[..2] == "~/")
    then error == RelativeTrustedPathRoot(i, path.root)
    else path.scopes == {} && error == EmptyTrustedPathScopes(i)
  }

  predicate LowersFloor(rules: map<RuleId, RawAction>, rule: RuleId) {
    OnTheFloor(rule) && rule in rules && rules[rule] != RawDeny
  }

  /** What a refused config is refused for: the first in this order. */
  ghost predicate RefusedFor(raw: RawConfig, norm: string -> string, error: ConfigError) {
    if raw.version != 1 then error == UnsupportedVersion(raw.version)
    else if exists rule :: LowersFloor(raw.rules, rule) then
      exists rule :: LowersFloor(raw.rules, rule) && error == HardDenyFloorCannotBeLowered(rule, raw.rules[rule])
    else if raw.maxNestedParseDepth < 3 then
      error == HardDenyAnalysisDepthCannotBeLowered(raw.maxNestedParseDepth, 3)
    else if !InjectiveOn(norm, raw.unknownOverrides.Keys) then FirstCollision(error, raw.unknownOverrides.Keys, norm)
    else
      exists i | 0 <= i < |raw.trustedPaths| ::
        PathFault(error, raw.trustedPaths[i], i) && forall j | 0 <= j < i :: ValidPath(raw.trustedPaths[j])
  }

  lemma FamilyExactly(rule: RuleId, family: RuleFamily)
    ensures Family(rule) == family <==> InFamily(rule, family)
  {
  }

  lemma AskedIsSaid(raw: RawConfig, rule: RuleId)
    requires !OnTheFloor(rule)
    ensures DoesAsSaid(raw, rule, Asked(raw, rule))
  {
    FamilyExactly(rule, Family(rule));
    forall family | InFamily(rule, family) ensures family == Family(rule) {
      FamilyExactly(rule, family);
    }
  }

  lemma RulesAsSaid(policy: Policy, raw: RawConfig, norm: string -> string, rule: RuleId)
    requires InForce(policy, raw, norm)
    ensures DoesAsSaid(raw, rule, ActionFor(policy.families, policy.rules, rule))
  {
    assert rule in HARD_DENY_FLOOR_RULES <==> OnTheFloor(rule);
    if !OnTheFloor(rule) {
      AskedIsSaid(raw, rule);
    }
  }

  lemma SetsAsSaid(policy: Policy, raw: RawConfig, norm: string -> string)
    requires InForce(policy, raw, norm)
    ensures TrustsAsSaid(policy, raw)
  {
    assert forall i: nat :: TrustSetName(i) == "user_trusted_path_" + Text.Decimal(i);
    assert forall rule ::
        rule in TRUSTED_PATH_RULES <==> rule in {OutsideWorkspaceScriptSource, OutsideWorkspaceStartupConfig};
  }

  lemma InForceIsAsSaid(policy: Policy, raw: RawConfig, norm: string -> string)
    requires InForce(policy, raw, norm)
    ensures AsSaid(policy, raw, norm)
  {
    forall rule ensures DoesAsSaid(raw, rule, ActionFor(policy.families, policy.rules, rule)) {
      RulesAsSaid(policy, raw, norm, rule);
    }
    SetsAsSaid(policy, raw, norm);
    assert forall key | key in raw.unknownOverrides :: key in KeysInOrder(raw.unknownOverrides.Keys);
  }

  lemma PathErrorIsFault(path: RawTrustedPath, i: nat)
    ensures PathError(path, i).Some? ==> PathFault(PathError(path, i).value, path, i)
    ensures PathError(path, i).None? ==> ValidPath(path)
  {
    var root := Text.Trim(path.root);
    assert "/" <= root <==> root != "" && root[0] == '/';
    assert "~/" <= root <==> |root| >= 2 && root[..2] == "~/";
  }

  lemma {:induction false} FirstPathErrorIsFault(paths: seq<RawTrustedPath>) returns (i: nat)
    requires FirstPathError(paths).Some?
    ensures i < |paths| && PathFault(FirstPathError(paths).value, paths[i], i)
    ensures forall j | 0 <= j < i :: ValidPath(paths[j])
  {
    var n := |paths| - 1;
    FirstPathErrorExactly(paths[..n]);
    if FirstPathError(paths[..n]).Some? {
      i := FirstPathErrorIsFault(paths[..n]);
      assert forall j | 0 <= j < i :: paths[..n][j] == paths[j];
    } else {
      i := n;
      PathErrorIsFault(paths[n], n);
      assert forall j | 0 <= j < n :: paths[..n][j] == paths[j];
    }
  }

  lemma RespectsFloorExactly(rules: map<RuleId, RawAction>)
    ensures RespectsFloor(rules) <==> !exists rule :: LowersFloor(rules, rule)
  {
    assert HARD_DENY_FLOOR_RULES[0] == CatastrophicFileSystemDelete;
    assert HARD_DENY_FLOOR_RULES[1] == CatastrophicShellProcessExplosion;
    assert LowersFloor(rules, CatastrophicFileSystemDelete) || LowersFloor(rules, CatastrophicShellProcessExplosion)
        || forall rule :: !LowersFloor(rules, rule);
  }

  function Strictness(action: RuleAction): nat {
    match action
    case Observe => 0
    case NeedApproval => 1
    case Deny => 2
  }

  function RawStrictness(action: RawAction): nat {
    match action
    case RawAllow => 0
    case RawNeedApproval => 1
    case RawDeny => 2
  }

  /** Asking for more of one rule, and changing nothing else, never makes it do less. */
  lemma StricterIsStricter(raw: RawConfig, rule: RuleId, more: RawAction, lax: RuleAction, strict: RuleAction)
    requires rule in raw.rules && RawStrictness(raw.rules[rule]) <= RawStrictness(more)
    requires DoesAsSaid(raw, rule, lax) && DoesAsSaid(raw.(rules := raw.rules[rule := more]), rule, strict)
    ensures Strictness(lax) <= Strictness(strict)
  {
  }


  /** Accepts exactly the acceptable configs. */
  method NormalizeConfig(raw: RawConfig, norm: string -> string) returns (r: Result<Policy, ConfigError>)
    ensures r.Success? <==> Acceptable(raw, norm)
    ensures r.Success? ==> InForce(r.value, raw, norm) && AsSaid(r.value, raw, norm)
    ensures r.Failure? ==> RefusedFor(raw, norm, r.error)
  {
    RespectsFloorExactly(raw.rules);
    if raw.version != CURRENT_VERSION {
      return Failure(UnsupportedVersion(raw.version));
    }
    var lowered := ValidateHardDenyOverrides(raw.rules);
    if lowered.Some? {
      return Failure(lowered.value);
    }
    if raw.maxNestedParseDepth < MINIMUM_DEPTH {
      return Failure(HardDenyAnalysisDepthCannotBeLowered(raw.maxNestedParseDepth, MINIMUM_DEPTH));
    }
    var families := map family | family in raw.families :: Entry(NormalizeAction(raw.families[family]), []);
    var rules := map rule | rule in raw.rules :: Entry(NormalizeAction(raw.rules[rule]), []);
    var floored := EnforceHardDenyFloor(rules);
    var commands := NormalizeUnknownCommands(raw.unknownOverrides, norm);
    if commands.Failure? {
      return Failure(commands.error);
    }
    FirstPathErrorExactly(raw.trustedPaths);
    var sets := NormalizeTrustedPaths(raw.trustedPaths);
    if sets.Failure? {
      var i := FirstPathErrorIsFault(raw.trustedPaths);
      return Failure(sets.error);
    }
    var attached := AttachTrustedPaths(floored, families, SetNames(sets.value));
    r := Success(Policy(families, attached, NormalizeAction(raw.unknownDefault), commands.value, sets.value,
                        raw.maxNestedParseDepth));
    FlooredAsAsked(raw, families, rules, floored);
    InForceIsAsSaid(r.value, raw, norm);
  }

  /** Before trusted paths are attached: the floor, then what was asked, and no trust. */
  lemma FlooredAsAsked(raw: RawConfig, families: map<RuleFamily, Entry>, rules: map<RuleId, Entry>,
                       floored: map<RuleId, Entry>)
    requires families == map family | family in raw.families :: Entry(NormalizeAction(raw.families[family]), [])
    requires rules == map rule | rule in raw.rules :: Entry(NormalizeAction(raw.rules[rule]), [])
    requires forall rule | rule in HARD_DENY_FLOOR_RULES :: rule in floored && floored[rule] == Entry(Deny, [])
    requires forall rule | rule !in HARD_DENY_FLOOR_RULES ::
               (rule in floored <==> rule in rules) && (rule in floored ==> floored[rule] == rules[rule])
    ensures forall rule :: ActionFor(families, floored, rule) ==
              if rule in HARD_DENY_FLOOR_RULES then Deny else Asked(raw, rule)
    ensures forall rule :: TrustedSetsFor(families, floored, rule) == []
  {
  }

  /**
   * Looking up a command: its own override by normal form, else the default; unambiguous because forms do not
   * collide.
   */
  lemma UnknownCommandLookup(policy: Policy, raw: RawConfig, norm: string -> string, key: string)
    requires Acceptable(raw, norm) && InForce(policy, raw, norm) && key in raw.unknownOverrides
    ensures norm(key) in policy.unknownCommands
    ensures policy.unknownCommands[norm(key)] == NormalizeAction(raw.unknownOverrides[key])
    ensures forall other | other in raw.unknownOverrides && norm(other) == norm(key) :: other == key
  {
  }
}
