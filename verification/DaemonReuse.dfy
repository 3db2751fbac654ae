/** Which daemon a hook ends up with: one that was launched for its own configuration, whatever went wrong before. */
module DaemonReuse {
  import opened Wrappers
  import opened DaemonLifecycle

  /** The record was made for a process that was started: same instance, same identity. */
  predicate MadeFor(spawned: set<Process>, m: Metadata) {
    exists p | p in spawned :: p.instance == m.instance && p.identity == m.identity
  }

  /** No two processes ever had one instance. */
  predicate InstancesDiffer(spawned: set<Process>) {
    forall p, q | p in spawned && q in spawned && p.instance == q.instance :: p == q
  }

  /** What a hook carries with it: a record that was made for a process, and a daemon of its own configuration. */
  predicate Carries(spawned: set<Process>, place: Place, config: Config) {
    match place
    case Rewriting(copy) => MadeFor(spawned, copy)
    case Terminating(doomed) => MadeFor(spawned, doomed)
    case Spawned(child, _) => child in spawned && child.identity == config.identity
    case Waiting(started) => MadeFor(spawned, started) && started.identity == config.identity
    case TimedOut(started) => MadeFor(spawned, started) && started.identity == config.identity
    case _ => true
  }

  ghost predicate RecordsMade(s: State, config: HookId -> Config) {
    && s.serving <= s.alive <= s.spawned && InstancesDiffer(s.spawned)
    && (s.metadata.Some? ==> MadeFor(s.spawned, s.metadata.value))
    && forall h: HookId :: Carries(s.spawned, At(s, h), config(h))
  }

  /** A record stays made for its process, whatever is started later. */
  lemma MadeStays(spawned: set<Process>, more: set<Process>, m: Metadata)
    requires MadeFor(spawned, m) && spawned <= more
    ensures MadeFor(more, m)
  {
    var p :| p in spawned && p.instance == m.instance && p.identity == m.identity;
    assert p in more;
  }

  lemma CarriesStays(spawned: set<Process>, more: set<Process>, place: Place, config: Config)
    requires Carries(spawned, place, config) && spawned <= more
    ensures Carries(more, place, config)
  {
    match place {
      case Rewriting(copy) => MadeStays(spawned, more, copy);
      case Terminating(doomed) => MadeStays(spawned, more, doomed);
      case Waiting(started) => MadeStays(spawned, more, started);
      case TimedOut(started) => MadeStays(spawned, more, started);
      case _ =>
    }
  }

  /** Processes only come by being spawned, anew. */
  lemma ProcessesKept(s: State, a: Action, config: HookId -> Config)
    requires RecordsMade(s, config) && Enabled(s, a, config)
    ensures var t := Step(s, a, config); t.serving <= t.alive <= t.spawned && InstancesDiffer(t.spawned)
  {
    assert a.Spawn? || Step(s, a, config).spawned == s.spawned;
  }

  /** What a step writes down was made for a process: a new record for the hook's own, or one that was there. */
  lemma RecordKept(s: State, a: Action, config: HookId -> Config)
    requires RecordsMade(s, config) && Enabled(s, a, config) && !a.Spawn?
    ensures var t := Step(s, a, config);
            && t.spawned == s.spawned && (t.metadata.Some? ==> MadeFor(t.spawned, t.metadata.value))
  {
    if !OfTheWorld(a) {
      assert Carries(s.spawned, At(s, a.h), config(a.h));
    }
  }

  lemma HookCarries(s: State, a: Action, config: HookId -> Config)
    requires RecordsMade(s, config) && Enabled(s, a, config) && !OfTheWorld(a) && !a.Spawn?
    ensures var t := Step(s, a, config); t.spawned == s.spawned && Carries(t.spawned, At(t, a.h), config(a.h))
  {
    assert Carries(s.spawned, At(s, a.h), config(a.h));
  }

  lemma MetadataKept(s: State, a: Action, config: HookId -> Config)
    requires RecordsMade(s, config) && Enabled(s, a, config)
    ensures var t := Step(s, a, config); t.metadata.Some? ==> MadeFor(t.spawned, t.metadata.value)
  {
    if !a.Spawn? {
      RecordKept(s, a, config);
    } else if s.metadata.Some? {
      MadeStays(s.spawned, Step(s, a, config).spawned, s.metadata.value);
    }
  }

  lemma OthersStay(s: State, a: Action, config: HookId -> Config, h: HookId)
    requires Enabled(s, a, config) && (OfTheWorld(a) || h != a.h)
    ensures At(Step(s, a, config), h) == At(s, h) && s.spawned <= Step(s, a, config).spawned
  {
    if !OfTheWorld(a) {
      HookMoves(s, a, config);
    }
  }

  lemma PlaceKept(s: State, a: Action, config: HookId -> Config, h: HookId)
    requires RecordsMade(s, config) && Enabled(s, a, config)
    ensures var t := Step(s, a, config); Carries(t.spawned, At(t, h), config(h))
  {
    if !OfTheWorld(a) && h == a.h {
      if !a.Spawn? {
        HookCarries(s, a, config);
      }
    } else {
      OthersStay(s, a, config, h);
      CarriesStays(s.spawned, Step(s, a, config).spawned, At(s, h), config(h));
    }
  }

  lemma RecordsKept(s: State, a: Action, config: HookId -> Config)
    requires RecordsMade(s, config) && Enabled(s, a, config)
    ensures RecordsMade(Step(s, a, config), config)
  {
    ProcessesKept(s, a, config);
    MetadataKept(s, a, config);
    forall h: HookId ensures Carries(Step(s, a, config).spawned, At(Step(s, a, config), h), config(h)) {
      PlaceKept(s, a, config, h);
    }
  }

  lemma {:induction false} RecordsAlwaysMade(s: State, actions: seq<Action>, t: State, config: HookId -> Config,
                                             faults: set<Fault>)
    requires Leads(s, actions, t, config, faults) && RecordsMade(s, config)
    ensures RecordsMade(t, config)
    decreases |actions|
  {
    if actions != [] {
      RecordsKept(s, actions[0], config);
      RecordsAlwaysMade(Step(s, actions[0], config), actions[1..], t, config, faults);
    }
  }

  /** The hook is done with a daemon that answers: reused as it is, waited for, or its own. */
  predicate Satisfied(a: Action) {
    a.ReuseUnlocked? || a.ReuseLocked? || a.AwaitOld? || a.BecomeReady?
  }

  /**
   * In every interleaving, whatever goes wrong, a hook that ends up with a daemon ends up with one that lives, serves
   * and was launched for the hook's own configuration.
   */
  lemma DaemonFits(t: State, config: HookId -> Config, faults: set<Fault>, a: Action) returns (p: Process)
    requires Reachable(t, config, faults) && Enabled(t, a, config) && Satisfied(a)
    ensures p in t.serving && p in t.alive && p.identity == config(a.h).identity
    ensures !a.BecomeReady? ==> t.metadata.Some? && t.metadata.value.identity == config(a.h).identity
                                && t.metadata.value.instance == p.instance
    ensures At(Step(t, a, config), a.h).Finished?
  {
    var actions :| Leads(START, actions, t, config, faults);
    RecordsAlwaysMade(START, actions, t, config, faults);
    assert Carries(t.spawned, At(t, a.h), config(a.h));
    var m := if a.BecomeReady? then At(t, a.h).started else t.metadata.value;
    p :| p in t.serving && p.instance == m.instance;
    var q :| q in t.spawned && q.instance == m.instance && q.identity == m.identity;
  }

  /** A hook that comes when such a daemon is recorded can be done at once, without the lock, changing nothing else. */
  lemma FittingIsReused(t: State, config: HookId -> Config, h: HookId, p: Process)
    requires At(t, h).Outside? && t.metadata.Some? && t.metadata.value.identity == config(h).identity
    requires p in t.serving && p.instance == t.metadata.value.instance
    ensures Enabled(t, ReuseUnlocked(h), config)
    ensures Step(t, ReuseUnlocked(h), config) == t.(places := t.places[h := Finished])
  {
  }

  /** One that comes to another daemon, or to none that answers, can not be done without the lock. */
  lemma OthersAreNotReused(t: State, config: HookId -> Config, h: HookId)
    requires t.metadata.Some? ==>
               || t.metadata.value.identity != config(h).identity
               || forall p | p in t.serving :: p.instance != t.metadata.value.instance
    ensures !Enabled(t, ReuseUnlocked(h), config) && !Enabled(t, ReuseLocked(h), config)
            && !Enabled(t, AwaitOld(h), config)
  {
  }

  /** Without faults the hook that started a daemon records that it is ready, and changes nothing else in the record. */
  lemma ReadyIsRecorded(t: State, config: HookId -> Config, h: HookId)
    requires Reachable(t, config, {}) && Enabled(t, BecomeReady(h), config)
    ensures Step(t, BecomeReady(h), config).metadata == Some(At(t, h).started.(status := Ready))
    ensures Step(t, BecomeReady(h), config).lock.None?
  {
    var actions :| Leads(START, actions, t, config, {});
    LeadsKeeps(START, actions, t, config, {});
    assert t.lock == Some(h);
  }

  /** Of the living, termination ends those that fit the record by id, start marker and executable, and no other. */
  lemma TerminationExactly(t: State, config: HookId -> Config, h: HookId)
    requires At(t, h).Terminating?
    ensures var m := At(t, h).doomed;
            forall p :: p in Step(t, KillOld(h), config).alive <==>
              p in t.alive && !(p.pid == m.pid && Some(p.marker) == m.marker && p.image == File(t, m.runtime))
  {
  }

  /** What a hook with the lock may do about the record: told from the record and the processes. */
  lemma HolderChoosesExactly(t: State, config: HookId -> Config, h: HookId)
    requires At(t, h).Holding?
    ensures Enabled(t, FindNoMetadata(h), config) <==> t.metadata.None?
    ensures t.metadata.Some? ==>
              var m := t.metadata.value;
              var lives := exists p | p in t.alive ::
                             p.pid == m.pid && Some(p.marker) == m.marker && p.image == File(t, m.runtime);
              && (Enabled(t, GiveUpOnOld(h), config) <==> lives) && (Enabled(t, FindNoProcess(h), config) <==> !lives)
  {
    if t.metadata.Some? {
      var m := t.metadata.value;
      assert forall p | p in t.alive :: IsProcessOf(t, p, m) <==>
          p.pid == m.pid && Some(p.marker) == m.marker && p.image == File(t, m.runtime);
    }
  }

  /** Steps after which nothing is recorded. */
  predicate Forgets(a: Action) {
    a.Clear? || a.Undo?
  }

  /**
   * Who writes the files: clearing and undoing remove both, recording writes both, and but for the one other edit of
   * the record nothing else does more than mark it as ready.
   */
  lemma FilesWrittenExactly(t: State, a: Action, config: HookId -> Config)
    requires Enabled(t, a, config)
    ensures var u := Step(t, a, config);
            if Forgets(a) then u.metadata.None? && u.pidFile.None?
            else if a.Record? || a.RecordUnmarked? then
              var p := At(t, a.h).child;
              && u.pidFile == Some(p.pid)
              && u.metadata == Some(Metadata(p.pid, if a.Record? then Some(p.marker) else None, p.instance, Starting,
                                             config(a.h).identity, At(t, a.h).runtime, config(a.h).settings))
            else
              && u.pidFile == t.pidFile
              && (if a.Rewrite? then u.metadata == Some(At(t, a.h).copy.(settings := a.edited))
                  else u.metadata == t.metadata
                       || (Satisfied(a) && t.metadata.Some? && u.metadata == Some(t.metadata.value.(status := Ready))))
  {
  }
}
