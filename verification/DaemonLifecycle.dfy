/**
 * Many hooks, one daemon: the lifecycle protocol of one runtime directory, around its lock, metadata file, pid file and
 * the daemon's writer lease. Each action is one step of one hook, or of the world; any interleaving may happen.
 */
module DaemonLifecycle {
  import opened Wrappers

  type HookId = nat
  type Path = nat
  type Image = nat

  /**
   * What must fit for a daemon to be reused, where its executable is, and what a hook may change in the record without
   * asking for a fit.
   */
  datatype Config = Config(identity: nat, runtime: Path, settings: nat)

  /**
   * A daemon: the system's id, its start marker, the instance that it answers pings with, its executable, and the
   * identity of the configuration that it was launched for.
   */
  datatype Process = Process(pid: nat, marker: nat, instance: nat, image: Image, identity: nat)

  datatype Status = Starting | Ready

  datatype Metadata = Metadata(pid: nat, marker: Option<nat>, instance: nat, status: Status, identity: nat,
                               runtime: Path, settings: nat)

  /** Where a hook is. The states from `Holding` to `Undoing` are those with the lock. */
  datatype Place =
    | Outside
    | Rewriting(copy: Metadata)
    | Blocked
    | Holding
    | Terminating(doomed: Metadata)
    | Clearing
    | Launching
    | Spawned(child: Process, runtime: Path)
    | Waiting(started: Metadata)
    | TimedOut(started: Metadata)
    | Undoing
    | Finished

  /**
   * `files` says which executable is at a path; `serving` are the processes that hold the writer lease, and `spawned`
   * those that were ever started.
   */
  datatype State = State(
    lock: Option<HookId>,
    metadata: Option<Metadata>,
    pidFile: Option<nat>,
    files: map<Path, Image>,
    alive: set<Process>,
    serving: set<Process>,
    spawned: set<Process>,
    places: map<HookId, Place>)

  const START: State := State(None, None, None, map[], {}, {}, {}, map[])

  datatype Action =
    | ReuseUnlocked(h: HookId)
    | Block(h: HookId)
    | Acquire(h: HookId)
    | ReuseLocked(h: HookId)
    | AwaitOld(h: HookId)
    | GiveUpOnOld(h: HookId)
    | FindNoProcess(h: HookId)
    | FindNoMetadata(h: HookId)
    | KillOld(h: HookId)
    | Clear(h: HookId)
    | Spawn(h: HookId, child: Process)
    | Record(h: HookId)
    | BecomeReady(h: HookId)
    | TimeOut(h: HookId)
    | KillNew(h: HookId)
    | Undo(h: HookId)
    | Abandon(h: HookId)
    | Restart(h: HookId)
    | ReadConfig(h: HookId)
    | KeepConfig(h: HookId)
    | Serve(process: Process)
    | TurnAway(process: Process)
    | Exit(process: Process)
    | InstallRuntime(path: Path, image: Image)
    | RecordUnmarked(h: HookId)
    | RecordFails(h: HookId)
    | Die(h: HookId)
    | KillNewFails(h: HookId)
    | Overlook(h: HookId)
    | Rewrite(h: HookId, edited: nat)
    | ReplaceRuntime(path: Path, image: Image)

  /**
   * What must not happen, each with the action that is it: a start marker that could not be read, a record that could
   * not be written, a hook that dies between spawning and recording, a new daemon that outlives its termination, a
   * living daemon that is looked up in vain, a rewrite of the record without the lock, and another executable where a
   * living daemon's was.
   */
  datatype Fault =
    MarkerLost | WriteFailed | HookKilled | KillFailed | ProcessOverlooked | UnlockedRewrite | RuntimeReplaced

  function FaultOf(a: Action): Option<Fault> {
    match a
    case RecordUnmarked(_) => Some(MarkerLost)
    case RecordFails(_) => Some(WriteFailed)
    case Die(_) => Some(HookKilled)
    case KillNewFails(_) => Some(KillFailed)
    case Overlook(_) => Some(ProcessOverlooked)
    case Rewrite(_, _) => Some(UnlockedRewrite)
    case ReplaceRuntime(_, _) => Some(RuntimeReplaced)
    case _ => None
  }

  /** Not the step of a hook. */
  predicate OfTheWorld(a: Action) {
    a.Serve? || a.TurnAway? || a.Exit? || a.InstallRuntime? || a.ReplaceRuntime?
  }

  function At(s: State, h: HookId): Place {
    if h in s.places then s.places[h] else Outside
  }

  predicate Inside(place: Place) {
    !(place.Outside? || place.Rewriting? || place.Blocked? || place.Finished?)
  }

  function File(s: State, path: Path): Image {
    if path in s.files then s.files[path] else 0
  }

  /** Pid, start marker and executable all fit; without a marker nothing does. */
  predicate IsProcessOf(s: State, p: Process, m: Metadata) {
    m.pid == p.pid && m.marker == Some(p.marker) && p.image == File(s, m.runtime)
  }

  predicate ProcessMatches(s: State, m: Metadata) {
    exists p | p in s.alive :: IsProcessOf(s, p, m)
  }

  /** A ping is answered with an instance only by a serving daemon of that instance. */
  predicate Answers(s: State, m: Metadata) {
    exists p | p in s.serving :: p.instance == m.instance
  }

  /** A process that ends drops the lease. */
  function Survived(s: State, alive: set<Process>): State {
    s.(alive := alive, serving := s.serving * alive)
  }

  /** Only what fits the record is terminated. */
  function Killed(s: State, m: Metadata): State {
    Survived(s, set p | p in s.alive && !IsProcessOf(s, p, m))
  }

  /** Some living daemon was started from the file that is at the path. */
  predicate InUse(s: State, path: Path) {
    exists p | p in s.alive :: p.image == File(s, path)
  }

  function Move(s: State, h: HookId, place: Place): State {
    s.(places := s.places[h := place])
  }

  function Leave(s: State, h: HookId): State {
    s.(places := s.places[h := Finished], lock := None)
  }

  /** Marks the recorded daemon as ready, if it is still the recorded one. */
  function MarkReady(s: State, instance: nat): State {
    if s.metadata.Some? && s.metadata.value.instance == instance
    then s.(metadata := Some(s.metadata.value.(status := Ready))) else s
  }

  function RecordOf(p: Process, marker: Option<nat>, runtime: Path, config: Config): Metadata {
    Metadata(p.pid, marker, p.instance, Starting, config.identity, runtime, config.settings)
  }

  function Write(s: State, h: HookId, m: Metadata): State {
    Move(s.(metadata := Some(m), pidFile := Some(m.pid)), h, Waiting(m))
  }

  /** The process was never there before: no living one has its id, and none ever had its instance. */
  predicate IsNew(s: State, child: Process) {
    (forall p | p in s.alive :: p.pid != child.pid) && (forall p | p in s.spawned :: p.instance != child.instance)
  }

  /** It was started from the hook's executable and for its configuration. */
  predicate LaunchedBy(s: State, child: Process, config: Config) {
    child.image == File(s, config.runtime) && child.identity == config.identity
  }

  /** The record is of a daemon that the hook may use as it is. */
  predicate Recorded(s: State, config: Config) {
    s.metadata.Some? && s.metadata.value.identity == config.identity
  }

  predicate Enabled(s: State, a: Action, config: HookId -> Config) {
    match a
    case ReuseUnlocked(h) => At(s, h).Outside? && Recorded(s, config(h)) && Answers(s, s.metadata.value)
    case Block(h) => At(s, h).Outside?
    case Acquire(h) => At(s, h).Blocked? && s.lock.None?
    case ReuseLocked(h) => At(s, h).Holding? && Recorded(s, config(h)) && Answers(s, s.metadata.value)
    case AwaitOld(h) =>
      At(s, h).Holding? && Recorded(s, config(h)) && ProcessMatches(s, s.metadata.value) && Answers(s, s.metadata.value)
    case GiveUpOnOld(h) => At(s, h).Holding? && s.metadata.Some? && ProcessMatches(s, s.metadata.value)
    case FindNoProcess(h) => At(s, h).Holding? && s.metadata.Some? && !ProcessMatches(s, s.metadata.value)
    case FindNoMetadata(h) => At(s, h).Holding? && s.metadata.None?
    case KillOld(h) => At(s, h).Terminating?
    case Clear(h) => At(s, h).Clearing?
    case Spawn(h, child) =>
      At(s, h).Launching? && LaunchedBy(s, child, config(h)) && IsNew(s, child)
    case Record(h) => At(s, h).Spawned?
    case BecomeReady(h) => At(s, h).Waiting? && Answers(s, At(s, h).started)
    case TimeOut(h) => At(s, h).Waiting?
    case KillNew(h) => At(s, h).TimedOut?
    case Undo(h) => At(s, h).Undoing?
    case Abandon(h) => Inside(At(s, h)) && !At(s, h).Spawned?
    case Restart(h) => At(s, h).Finished?
    case ReadConfig(h) => At(s, h).Outside? && s.metadata.Some?
    case KeepConfig(h) => At(s, h).Rewriting?
    case Serve(p) => p in s.alive && s.serving == {}
    case TurnAway(p) => p in s.alive && exists q | q in s.serving :: q != p
    case Exit(p) => p in s.alive
    case InstallRuntime(path, _) => !InUse(s, path)
    case RecordUnmarked(h) => At(s, h).Spawned?
    case RecordFails(h) => At(s, h).Spawned?
    case Die(h) => At(s, h).Spawned?
    case KillNewFails(h) => At(s, h).TimedOut?
    case Overlook(h) => At(s, h).Terminating? || (At(s, h).Holding? && s.metadata.Some?)
    case Rewrite(h, edited) => At(s, h).Rewriting? && At(s, h).copy.settings != edited
    case ReplaceRuntime(path, image) => InUse(s, path) && image != File(s, path)
  }

  function Step(s: State, a: Action, config: HookId -> Config): State
    requires Enabled(s, a, config)
  {
    match a
    case ReuseUnlocked(h) => Move(s, h, Finished)
    case Block(h) => Move(s, h, Blocked)
    case Acquire(h) => Move(s, h, Holding).(lock := Some(h))
    case ReuseLocked(h) => Leave(s, h)
    case AwaitOld(h) => Leave(MarkReady(s, s.metadata.value.instance), h)
    case GiveUpOnOld(h) => Move(s, h, Terminating(s.metadata.value))
    case FindNoProcess(h) => Move(s, h, Clearing)
    case FindNoMetadata(h) => Move(s, h, Launching)
    case KillOld(h) => Move(Killed(s, At(s, h).doomed), h, Clearing)
    case Clear(h) => Move(s.(metadata := None, pidFile := None), h, Launching)
    case Spawn(h, child) =>
      Move(s.(alive := s.alive + {child}, spawned := s.spawned + {child}), h, Spawned(child, config(h).runtime))
    case Record(h) =>
      Write(s, h, RecordOf(At(s, h).child, Some(At(s, h).child.marker), At(s, h).runtime, config(h)))
    case BecomeReady(h) => Leave(MarkReady(s, At(s, h).started.instance), h)
    case TimeOut(h) => Move(s, h, TimedOut(At(s, h).started))
    case KillNew(h) => Move(Killed(s, At(s, h).started), h, Undoing)
    case Undo(h) => Leave(s.(metadata := None, pidFile := None), h)
    case Abandon(h) => Leave(s, h)
    case Restart(h) => Move(s, h, Outside)
    case ReadConfig(h) => Move(s, h, Rewriting(s.metadata.value))
    case KeepConfig(h) => Move(s, h, Outside)
    case Serve(p) => s.(serving := {p})
    case TurnAway(p) => Survived(s, s.alive - {p})
    case Exit(p) => Survived(s, s.alive - {p})
    case InstallRuntime(path, image) => s.(files := s.files[path := image])
    case RecordUnmarked(h) => Write(s, h, RecordOf(At(s, h).child, None, At(s, h).runtime, config(h)))
    case RecordFails(h) => Leave(s, h)
    case Die(h) => Leave(s, h)
    case KillNewFails(h) => Move(s, h, Undoing)
    case Overlook(h) => Move(s, h, Clearing)
    case Rewrite(h, edited) => Move(s.(metadata := Some(At(s, h).copy.(settings := edited))), h, Outside)
    case ReplaceRuntime(path, image) => s.(files := s.files[path := image])
  }

  /** Actions that can follow each other from `s`, using only the given faults, and end in `t`. */
  ghost predicate Leads(s: State, actions: seq<Action>, t: State, config: HookId -> Config, faults: set<Fault>)
    decreases |actions|
  {
    if actions == [] then s == t
    else
      && Enabled(s, actions[0], config)
      && (FaultOf(actions[0]).Some? ==> FaultOf(actions[0]).value in faults)
      && Leads(Step(s, actions[0], config), actions[1..], t, config, faults)
  }

  ghost predicate Reachable(t: State, config: HookId -> Config, faults: set<Fault>) {
    exists actions :: Leads(START, actions, t, config, faults)
  }

  // Mutual exclusion, whatever goes wrong.

  ghost predicate Exclusive(s: State) {
    forall h: HookId :: Inside(At(s, h)) <==> s.lock == Some(h)
  }

  /** One hook moves, taking the lock on entering and dropping it on leaving. */
  lemma MoveKeepsExclusive(s: State, h: HookId, t: State)
    requires Exclusive(s) && t.places == s.places[h := At(t, h)]
    requires Inside(At(t, h)) ==> t.lock == Some(h) && (s.lock.None? || s.lock == Some(h))
    requires !Inside(At(t, h)) ==> t.lock == if Inside(At(s, h)) then None else s.lock
    ensures Exclusive(t)
  {
    assert forall k: HookId | k != h :: At(t, k) == At(s, k);
  }

  /** A hook moves only itself. */
  lemma HookMoves(s: State, a: Action, config: HookId -> Config)
    requires Enabled(s, a, config) && !OfTheWorld(a)
    ensures Step(s, a, config).places == s.places[a.h := At(Step(s, a, config), a.h)]
  {
  }

  /** It enters when the lock is free, and drops the lock as it leaves. */
  lemma HookLocks(s: State, a: Action, config: HookId -> Config)
    requires Exclusive(s) && Enabled(s, a, config) && !OfTheWorld(a)
    ensures var t := Step(s, a, config);
            if Inside(At(t, a.h)) then t.lock == Some(a.h) && (s.lock.None? || s.lock == Some(a.h))
            else t.lock == if Inside(At(s, a.h)) then None else s.lock
  {
    assert Inside(At(s, a.h)) <==> s.lock == Some(a.h);
  }

  lemma ExclusiveKept(s: State, a: Action, config: HookId -> Config)
    requires Exclusive(s) && Enabled(s, a, config)
    ensures Exclusive(Step(s, a, config))
    ensures a.Spawn? ==> s.lock == Some(a.h)
  {
    if OfTheWorld(a) {
      assert forall k: HookId :: At(Step(s, a, config), k) == At(s, k);
    } else {
      HookMoves(s, a, config);
      HookLocks(s, a, config);
      MoveKeepsExclusive(s, a.h, Step(s, a, config));
    }
  }

  // The writer lease, whatever goes wrong.

  /** Living processes only, and of those at most one. */
  ghost predicate OneLease(s: State) {
    s.serving <= s.alive && forall p, q | p in s.serving && q in s.serving :: p == q
  }

  lemma LeaseKept(s: State, a: Action, config: HookId -> Config)
    requires OneLease(s) && Enabled(s, a, config)
    ensures OneLease(Step(s, a, config))
  {
  }

  /** Nobody takes the lease from a daemon that lives. */
  lemma LeaseHeld(s: State, a: Action, config: HookId -> Config, p: Process)
    requires Enabled(s, a, config) && p in s.serving && p in Step(s, a, config).alive
    ensures p in Step(s, a, config).serving
  {
  }

  // At most one daemon, when nothing goes wrong.

  /** Every living daemon is the recorded one. */
  predicate OnlyRecorded(s: State) {
    forall p | p in s.alive ::
      s.metadata.Some? && IsProcessOf(s, p, s.metadata.value) && p.instance == s.metadata.value.instance
  }

  predicate Marked(m: Option<Metadata>) {
    m.Some? ==> m.value.marker.Some?
  }

  /** What the hook with the lock knows about the living daemons. */
  predicate KnownTo(s: State, place: Place) {
    match place
    case Holding => OnlyRecorded(s)
    case Terminating(m) => s.metadata == Some(m) && OnlyRecorded(s)
    case Clearing => s.alive == {}
    case Launching => s.alive == {} && s.metadata.None?
    case Spawned(child, runtime) =>
      s.alive <= {child} && s.metadata.None? && (child in s.alive ==> child.image == File(s, runtime))
    case Waiting(m) => s.metadata == Some(m) && OnlyRecorded(s)
    case TimedOut(m) => s.metadata == Some(m) && OnlyRecorded(s)
    case Undoing => s.alive == {}
    case _ => false
  }

  predicate Known(s: State) {
    if s.lock.None? then OnlyRecorded(s) else KnownTo(s, At(s, s.lock.value))
  }

  predicate PidsDiffer(s: State) {
    forall p, q | p in s.alive && q in s.alive && p != q :: p.pid != q.pid
  }

  predicate PidFileFits(s: State) {
    s.pidFile == if s.metadata.Some? then Some(s.metadata.value.pid) else None
  }

  ghost predicate Inv(s: State) {
    && Exclusive(s) && PidsDiffer(s) && Marked(s.metadata) && PidFileFits(s)
    && Known(s)
  }

  predicate AtMostOne(s: State) {
    forall p, q | p in s.alive && q in s.alive :: p == q
  }

  lemma PidsKept(s: State, a: Action, config: HookId -> Config)
    requires PidsDiffer(s) && Enabled(s, a, config)
    ensures PidsDiffer(Step(s, a, config))
  {
    assert a.Spawn? || Step(s, a, config).alive <= s.alive;
  }

  lemma MarkerKept(s: State, a: Action, config: HookId -> Config)
    requires Marked(s.metadata) && Enabled(s, a, config) && FaultOf(a).None?
    ensures Marked(Step(s, a, config).metadata)
  {
  }

  lemma PidFileKept(s: State, a: Action, config: HookId -> Config)
    requires PidFileFits(s) && Enabled(s, a, config) && FaultOf(a).None?
    ensures PidFileFits(Step(s, a, config))
  {
  }

  /** Still dealing with the daemon that was there. */
  predicate WithOld(place: Place) {
    place.Holding? || place.Terminating? || place.Clearing?
  }

  lemma OldKnown(s: State, a: Action, config: HookId -> Config)
    requires Enabled(s, a, config) && FaultOf(a).None? && !OfTheWorld(a)
    requires WithOld(At(s, a.h)) && KnownTo(s, At(s, a.h))
    ensures var t := Step(s, a, config); if Inside(At(t, a.h)) then KnownTo(t, At(t, a.h)) else OnlyRecorded(t)
  {
  }

  lemma NewKnown(s: State, a: Action, config: HookId -> Config)
    requires Enabled(s, a, config) && FaultOf(a).None? && !OfTheWorld(a)
    requires Inside(At(s, a.h)) && !WithOld(At(s, a.h)) && KnownTo(s, At(s, a.h))
    ensures var t := Step(s, a, config); if Inside(At(t, a.h)) then KnownTo(t, At(t, a.h)) else OnlyRecorded(t)
  {
  }

  /** A step of the hook with the lock hands on what it knows, to itself or to whoever comes next. */
  lemma InsideKnown(s: State, a: Action, config: HookId -> Config)
    requires Exclusive(s) && Known(s) && Enabled(s, a, config) && FaultOf(a).None?
    requires !OfTheWorld(a) && Inside(At(s, a.h))
    ensures Known(Step(s, a, config))
  {
    assert s.lock == Some(a.h);
    HookMoves(s, a, config);
    HookLocks(s, a, config);
    if WithOld(At(s, a.h)) {
      OldKnown(s, a, config);
    } else {
      NewKnown(s, a, config);
    }
  }

  /** A step of a hook without the lock leaves everything but its own place, and who has the lock. */
  lemma OutsideMoves(s: State, a: Action, config: HookId -> Config)
    requires Enabled(s, a, config) && FaultOf(a).None? && !OfTheWorld(a) && !Inside(At(s, a.h))
    ensures var t := Step(s, a, config);
            && t.metadata == s.metadata && t.alive == s.alive && t.files == s.files
            && (Inside(At(t, a.h)) ==> At(t, a.h).Holding? && s.lock.None?)
  {
  }

  lemma SameKnown(s: State, t: State, place: Place)
    requires t.metadata == s.metadata && t.alive == s.alive && t.files == s.files
    ensures OnlyRecorded(t) == OnlyRecorded(s) && KnownTo(t, place) == KnownTo(s, place)
  {
  }

  lemma OutsideKnown(s: State, a: Action, config: HookId -> Config)
    requires Exclusive(s) && Known(s) && Enabled(s, a, config) && FaultOf(a).None?
    requires !OfTheWorld(a) && !Inside(At(s, a.h))
    ensures Known(Step(s, a, config))
  {
    assert s.lock != Some(a.h);
    HookMoves(s, a, config);
    HookLocks(s, a, config);
    OutsideMoves(s, a, config);
    SameKnown(s, Step(s, a, config), if s.lock.Some? then At(s, s.lock.value) else Holding);
  }

  /** What the world does without a fault only takes daemons away, or files that no daemon was started from. */
  lemma WorldKept(s: State, a: Action, config: HookId -> Config)
    requires Enabled(s, a, config) && FaultOf(a).None? && OfTheWorld(a)
    requires Known(s)
    ensures Known(Step(s, a, config))
  {
  }

  lemma InvKept(s: State, a: Action, config: HookId -> Config)
    requires Inv(s) && Enabled(s, a, config) && FaultOf(a).None?
    ensures Inv(Step(s, a, config))
  {
    ExclusiveKept(s, a, config);
    PidsKept(s, a, config);
    MarkerKept(s, a, config);
    PidFileKept(s, a, config);
    if OfTheWorld(a) {
      WorldKept(s, a, config);
    } else if Inside(At(s, a.h)) {
      InsideKnown(s, a, config);
    } else {
      OutsideKnown(s, a, config);
    }
  }

  lemma OnlyOne(s: State)
    requires Inv(s)
    ensures AtMostOne(s)
  {
  }

  lemma {:induction false} LeadsKeeps(s: State, actions: seq<Action>, t: State, config: HookId -> Config,
                                      faults: set<Fault>)
    requires Leads(s, actions, t, config, faults) && Exclusive(s) && OneLease(s)
    ensures Exclusive(t) && OneLease(t)
    ensures Inv(s) && faults == {} ==> Inv(t)
    decreases |actions|
  {
    if actions != [] {
      ExclusiveKept(s, actions[0], config);
      LeaseKept(s, actions[0], config);
      if Inv(s) && faults == {} {
        InvKept(s, actions[0], config);
      }
      LeadsKeeps(Step(s, actions[0], config), actions[1..], t, config, faults);
    }
  }

  /** At most one hook is between taking and dropping the lock, and only there are daemons spawned; faults or not. */
  lemma OneInside(t: State, config: HookId -> Config, faults: set<Fault>)
    requires Reachable(t, config, faults)
    ensures forall h, k | Inside(At(t, h)) && Inside(At(t, k)) :: h == k
    ensures forall a | Enabled(t, a, config) && a.Spawn? :: t.lock == Some(a.h)
  {
    var actions :| Leads(START, actions, t, config, faults);
    LeadsKeeps(START, actions, t, config, faults);
  }

  /** Without faults and with the lock free, metadata and pid file name every living daemon. */
  lemma FilesTellTheTruth(t: State, config: HookId -> Config)
    requires Reachable(t, config, {}) && t.lock.None?
    ensures forall p | p in t.alive ::
              && t.pidFile == Some(p.pid) && t.metadata.Some?
              && var m := t.metadata.value;
                 && m.pid == p.pid && m.marker == Some(p.marker) && m.instance == p.instance
                 && p.image == File(t, m.runtime)
  {
    var actions :| Leads(START, actions, t, config, {});
    LeadsKeeps(START, actions, t, config, {});
  }

  // Each fault alone breaks it.

  lemma {:induction false} LeadsOn(s: State, actions: seq<Action>, t: State, a: Action, config: HookId -> Config,
                                   faults: set<Fault>)
    requires Leads(s, actions, t, config, faults) && Enabled(t, a, config)
    requires FaultOf(a).Some? ==> FaultOf(a).value in faults
    ensures Leads(s, actions + [a], Step(t, a, config), config, faults)
    decreases |actions|
  {
    if actions == [] {
      assert [] + [a] == [a];
    } else {
      LeadsOn(Step(s, actions[0], config), actions[1..], t, a, config, faults);
      assert (actions + [a])[1..] == actions[1..] + [a];
    }
  }

  lemma Next(t: State, a: Action, config: HookId -> Config, faults: set<Fault>) returns (u: State)
    requires Reachable(t, config, faults) && Enabled(t, a, config)
    requires FaultOf(a).Some? ==> FaultOf(a).value in faults
    ensures u == Step(t, a, config) && Reachable(u, config, faults)
  {
    var actions :| Leads(START, actions, t, config, faults);
    LeadsOn(START, actions, t, a, config, faults);
    u := Step(t, a, config);
  }

  function Daemon(n: nat, config: Config): Process {
    Process(n, n, n, 0, config.identity)
  }

  /** A hook finds nothing recorded, or nothing living that fits the record, and spawns. */
  lemma SpawnsAnother(t: State, h: HookId, child: Process, config: HookId -> Config,
                      faults: set<Fault>) returns (u: State)
    requires Reachable(t, config, faults) && t.lock.None? && At(t, h).Outside?
    requires t.metadata.Some? ==> !ProcessMatches(t, t.metadata.value)
    requires LaunchedBy(t, child, config(h)) && IsNew(t, child)
    ensures Reachable(u, config, faults) && u.alive == t.alive + {child} && u.serving == t.serving && u.metadata.None?
    ensures u.spawned == t.spawned + {child}
    ensures u.files == t.files && u.lock == Some(h) && u.places == t.places[h := Spawned(child, config(h).runtime)]
  {
    var v := Enters(t, h, config, faults);
    v := Clears(v, h, config, faults);
    u := Next(v, Spawn(h, child), config, faults);
    assert u.places == t.places[h := Spawned(child, config(h).runtime)];
  }

  /** A hook with the lock that finds no living daemon clears the record of one, if there is any. */
  lemma Clears(t: State, h: HookId, config: HookId -> Config, faults: set<Fault>) returns (u: State)
    requires Reachable(t, config, faults) && At(t, h).Holding?
    requires t.metadata.Some? ==> !ProcessMatches(t, t.metadata.value)
    ensures Reachable(u, config, faults) && u.alive == t.alive && u.serving == t.serving && u.files == t.files
    ensures u.spawned == t.spawned && u.lock == t.lock && u.metadata.None? && u.places == t.places[h := Launching]
  {
    if t.metadata.Some? {
      u := Next(t, FindNoProcess(h), config, faults);
      u := Next(u, Clear(h), config, faults);
    } else {
      u := Next(t, FindNoMetadata(h), config, faults);
    }
    assert u.places == t.places[h := Launching];
  }

  lemma Enters(t: State, h: HookId, config: HookId -> Config, faults: set<Fault>) returns (u: State)
    requires Reachable(t, config, faults) && t.lock.None? && At(t, h).Outside?
    ensures Reachable(u, config, faults) && u == t.(lock := Some(h), places := t.places[h := Holding])
  {
    u := Next(t, Block(h), config, faults);
    u := Next(u, Acquire(h), config, faults);
    assert u.places == t.places[h := Holding];
  }

  lemma FirstDaemon(config: HookId -> Config, faults: set<Fault>) returns (t: State)
    ensures Reachable(t, config, faults)
    ensures t.lock == Some(0) && t.metadata.None? && t.serving == {} && t.files == map[]
    ensures t.alive == t.spawned == {Daemon(1, config(0))}
    ensures t.places == map[0 := Spawned(Daemon(1, config(0)), config(0).runtime)]
  {
    assert Leads(START, [], START, config, faults);
    t := SpawnsAnother(START, 0, Daemon(1, config(0)), config, faults);
    assert t.alive == {Daemon(1, config(0))} && t.spawned == {Daemon(1, config(0))};
  }

  /** With any one of the faults, a state with two living daemons is reachable. */
  lemma FaultsBreak(config: HookId -> Config, faults: set<Fault>, fault: Fault) returns (t: State)
    requires fault in faults
    ensures Reachable(t, config, faults) && !AtMostOne(t)
  {
    match fault {
      case HookKilled => t := LostAfterSpawn(Die(0), config, faults);
      case WriteFailed => t := LostAfterSpawn(RecordFails(0), config, faults);
      case MarkerLost => t := MarkerLostBreaks(config, faults);
      case KillFailed => t := KillFailedBreaks(config, faults);
      case ProcessOverlooked => t := OverlookBreaks(config, faults);
      case RuntimeReplaced => t := ReplaceBreaks(config, faults);
      case UnlockedRewrite => t := RewriteBreaks(config, faults);
    }
  }

  lemma LostAfterSpawn(a: Action, config: HookId -> Config, faults: set<Fault>) returns (t: State)
    requires a in {Die(0), RecordFails(0)} && FaultOf(a).value in faults
    ensures Reachable(t, config, faults) && !AtMostOne(t)
  {
    t := FirstDaemon(config, faults);
    t := Next(t, a, config, faults);
    t := SpawnsAnother(t, 1, Daemon(2, config(1)), config, faults);
    assert Daemon(1, config(0)) in t.alive && Daemon(2, config(1)) in t.alive;
  }

  lemma MarkerLostBreaks(config: HookId -> Config, faults: set<Fault>) returns (t: State)
    requires MarkerLost in faults
    ensures Reachable(t, config, faults) && !AtMostOne(t)
  {
    t := FirstDaemon(config, faults);
    t := Next(t, RecordUnmarked(0), config, faults);
    t := Next(t, Abandon(0), config, faults);
    t := SpawnsAnother(t, 1, Daemon(2, config(1)), config, faults);
    assert Daemon(1, config(0)) in t.alive && Daemon(2, config(1)) in t.alive;
  }

  /** The first daemon is recorded, and never becomes ready. */
  lemma FirstTimesOut(config: HookId -> Config, faults: set<Fault>) returns (t: State)
    ensures Reachable(t, config, faults) && t.lock == Some(0) && t.files == map[]
    ensures t.alive == t.spawned == {Daemon(1, config(0))}
    ensures At(t, 0).TimedOut? && At(t, 1).Outside?
  {
    t := FirstDaemon(config, faults);
    t := Next(t, Record(0), config, faults);
    t := Next(t, TimeOut(0), config, faults);
  }

  lemma KillFailedBreaks(config: HookId -> Config, faults: set<Fault>) returns (t: State)
    requires KillFailed in faults
    ensures Reachable(t, config, faults) && !AtMostOne(t)
  {
    t := FirstTimesOut(config, faults);
    t := Next(t, KillNewFails(0), config, faults);
    t := Next(t, Undo(0), config, faults);
    t := SpawnsAnother(t, 1, Daemon(2, config(1)), config, faults);
    assert Daemon(1, config(0)) in t.alive && Daemon(2, config(1)) in t.alive;
  }

  /** A hook that is done starting its daemon, which serves. */
  lemma RecordedAndReady(s: State, h: HookId, child: Process, config: HookId -> Config, faults: set<Fault>)
    returns (t: State)
    requires Reachable(s, config, faults) && At(s, h) == Spawned(child, config(h).runtime)
    requires child in s.alive && s.serving == {}
    ensures Reachable(t, config, faults) && t.lock.None? && t.alive == s.alive && t.places == s.places[h := Finished]
    ensures t.serving == {child} && t.files == s.files && t.spawned == s.spawned && t.metadata.Some?
    ensures t.metadata.value.pid == child.pid && t.metadata.value.marker == Some(child.marker)
    ensures t.metadata.value.runtime == config(h).runtime
  {
    t := Next(s, Serve(child), config, faults);
    t := Next(t, Record(h), config, faults);
    assert child in t.serving && child.instance == At(t, h).started.instance;
    t := Next(t, BecomeReady(h), config, faults);
    assert t.places == s.places[h := Finished];
  }

  /** A hook looks for a serving daemon in vain and starts another. */
  lemma OverlookBreaks(config: HookId -> Config, faults: set<Fault>) returns (t: State)
    requires ProcessOverlooked in faults
    ensures Reachable(t, config, faults) && !AtMostOne(t)
  {
    t := FirstDaemon(config, faults);
    t := RecordedAndReady(t, 0, Daemon(1, config(0)), config, faults);
    t := Enters(t, 1, config, faults);
    t := Next(t, Overlook(1), config, faults);
    t := Next(t, Clear(1), config, faults);
    t := Next(t, Spawn(1, Daemon(2, config(1))), config, faults);
    assert Daemon(1, config(0)) in t.alive && Daemon(2, config(1)) in t.alive;
  }

  /** The serving daemon's executable is replaced, and no longer fits the record. */
  lemma ReplaceBreaks(config: HookId -> Config, faults: set<Fault>) returns (t: State)
    requires RuntimeReplaced in faults
    ensures Reachable(t, config, faults) && !AtMostOne(t)
  {
    t := FirstDaemon(config, faults);
    t := RecordedAndReady(t, 0, Daemon(1, config(0)), config, faults);
    assert Daemon(1, config(0)) in t.alive;
    t := Next(t, ReplaceRuntime(config(0).runtime, 1), config, faults);
    assert !ProcessMatches(t, t.metadata.value);
    var second := Daemon(2, config(1)).(image := File(t, config(1).runtime));
    t := SpawnsAnother(t, 1, second, config, faults);
    assert Daemon(1, config(0)) in t.alive && second in t.alive;
  }

  /** A hook has read the record of a daemon that has since died. */
  lemma StaleCopy(config: HookId -> Config, faults: set<Fault>) returns (t: State)
    ensures Reachable(t, config, faults) && t.lock.None? && t.alive == {} && t.serving == {} && t.files == map[]
    ensures t.spawned == {Daemon(1, config(0))}
    ensures At(t, 2).Rewriting? && At(t, 2).copy.pid == 1 && At(t, 1).Outside? && At(t, 3).Outside?
    ensures t.metadata.Some?
  {
    t := FirstDaemon(config, faults);
    t := RecordedAndReady(t, 0, Daemon(1, config(0)), config, faults);
    t := Next(t, ReadConfig(2), config, faults);
    t := Next(t, Exit(Daemon(1, config(0))), config, faults);
    assert t.alive == {} && t.serving == {};
  }

  lemma RewriteBreaks(config: HookId -> Config, faults: set<Fault>) returns (t: State)
    requires UnlockedRewrite in faults
    ensures Reachable(t, config, faults) && !AtMostOne(t)
  {
    t := StaleCopy(config, faults);
    t := SpawnsAnother(t, 1, Daemon(2, config(1)), config, faults);
    t := RecordedAndReady(t, 1, Daemon(2, config(1)), config, faults);
    t := Next(t, Rewrite(2, At(t, 2).copy.settings + 1), config, faults);
    assert t.alive == {Daemon(2, config(1))};
    assert !ProcessMatches(t, t.metadata.value);
    t := SpawnsAnother(t, 3, Daemon(3, config(3)), config, faults);
    assert Daemon(2, config(1)) in t.alive && Daemon(3, config(3)) in t.alive;
  }

  /**
   * At most one spawned daemon is ever alive, in all interleavings of all hooks, exactly when none of the faults
   * occurs.
   */
  lemma OneDaemonExactly(config: HookId -> Config, faults: set<Fault>)
    ensures (forall t | Reachable(t, config, faults) :: AtMostOne(t)) <==> faults == {}
  {
    if faults == {} {
      forall t | Reachable(t, config, faults) ensures AtMostOne(t) {
        var actions :| Leads(START, actions, t, config, faults);
        LeadsKeeps(START, actions, t, config, faults);
        OnlyOne(t);
      }
    } else {
      var fault :| fault in faults;
      var t := FaultsBreak(config, faults, fault);
    }
  }

  // Who serves.

  /** At most one daemon holds the writer lease, in all interleavings and whatever goes wrong, and it is alive. */
  lemma OneServes(t: State, config: HookId -> Config, faults: set<Fault>)
    requires Reachable(t, config, faults)
    ensures t.serving <= t.alive && forall p, q | p in t.serving && q in t.serving :: p == q
  {
    var actions :| Leads(START, actions, t, config, faults);
    LeadsKeeps(START, actions, t, config, faults);
  }

  /** Of two living daemons one may be turned away at the lease, at once or when the other serves. */
  lemma SecondIsTurnedAway(t: State, config: HookId -> Config, faults: set<Fault>) returns (u: State, p: Process)
    requires Reachable(t, config, faults) && !AtMostOne(t)
    ensures Reachable(u, config, faults) && Enabled(u, TurnAway(p), config)
  {
    var first, second :| first in t.alive && second in t.alive && first != second;
    if t.serving == {} {
      u := Next(t, Serve(first), config, faults);
      p := second;
      assert first in u.serving;
    } else {
      var holder :| holder in t.serving;
      u, p := t, if first != holder then first else second;
    }
  }

  /** No daemon is ever turned away at the lease, exactly when none of the faults occurs. */
  lemma NoneTurnedAwayExactly(config: HookId -> Config, faults: set<Fault>)
    ensures (forall t, p | Reachable(t, config, faults) :: !Enabled(t, TurnAway(p), config)) <==> faults == {}
  {
    if faults == {} {
      OneDaemonExactly(config, faults);
      forall t, p | Reachable(t, config, faults) ensures !Enabled(t, TurnAway(p), config) {
        OneServes(t, config, faults);
      }
    } else {
      var fault :| fault in faults;
      var t := FaultsBreak(config, faults, fault);
      var u, p := SecondIsTurnedAway(t, config, faults);
    }
  }
}
