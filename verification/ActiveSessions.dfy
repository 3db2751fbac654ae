/** The heartbeat records of active sessions: one file per session, stale ones pruned by whoever comes by. */
module ActiveSessions {
  import Text

  const STALE_TIMEOUT: nat := 12 * 60 * 60 * 1000

  /** A record file, by the hash of its session; a file that does not parse is kept as it is. */
  datatype Record =
    | Malformed(contents: string)
    | Active(startedAt: string, heartbeatAt: nat, lastEvent: string)

  type Records = map<string, Record>

  datatype Event =
    | Write(sessionId: string, now: nat, nowText: string, eventName: string)
    | Remove(sessionId: string, now: nat)

  predicate HasRealSessionId(sessionId: string) {
    Text.Trim(sessionId) != "" && Text.Trim(sessionId) != "unknown"
  }

  /** Subtraction saturates: a heartbeat from the future is not stale. */
  predicate Stale(record: Record, now: nat) {
    record.Active? && now > record.heartbeatAt && now - record.heartbeatAt > STALE_TIMEOUT
  }

  function Pruned(records: Records, now: nat): Records {
    map k | k in records && !Stale(records[k], now) :: records[k]
  }

  function StartedAt(records: Records, k: string, nowText: string): string {
    if k in records && records[k].Active? then records[k].startedAt else nowText
  }

  function Apply(records: Records, e: Event, hash: string -> string): Records {
    match e
    case Write(sessionId, now, nowText, eventName) =>
      if !HasRealSessionId(sessionId) then records
      else
        var kept, k := Pruned(records, now), hash(sessionId);
        kept[k := Active(StartedAt(kept, k, nowText), now, eventName)]
    case Remove(sessionId, now) =>
      Pruned(if HasRealSessionId(sessionId) then records - {hash(sessionId)} else records, now)
  }

  function Run(records: Records, events: seq<Event>, hash: string -> string): Records
    decreases |events|
  {
    if events == [] then records else Run(Apply(records, events[0], hash), events[1..], hash)
  }

  class ActiveSessionStore {
    var records: Records
    const hash: string -> string

    constructor (hash: string -> string)
      ensures records == map[] && this.hash == hash
    {
      this.hash := hash;
      records := map[];
    }

    /** Visits the files in whatever order the directory lists them. */
    method PruneStale(now: nat)
      modifies `records
      ensures records == Pruned(old(records), now)
    {
      var entries := records.Keys;
      while entries != {}
        invariant entries <= old(records).Keys
        invariant forall k :: k in records <==> k in old(records) && (k in entries || !Stale(old(records)[k], now))
        invariant forall k | k in records :: records[k] == old(records)[k]
        decreases |entries|
      {
        var k :| k in entries;
        entries := entries - {k};
        if Stale(records[k], now) {
          records := records - {k};
        }
      }
    }

    method WriteRecord(sessionId: string, now: nat, nowText: string, eventName: string)
      modifies `records
      ensures records == Apply(old(records), Write(sessionId, now, nowText, eventName), hash)
    {
      if !HasRealSessionId(sessionId) {
        return;
      }
      PruneStale(now);
      var k := hash(sessionId);
      records := records[k := Active(StartedAt(records, k, nowText), now, eventName)];
    }

    method RemoveRecord(sessionId: string, now: nat)
      modifies `records
      ensures records == Apply(old(records), Remove(sessionId, now), hash)
    {
      if HasRealSessionId(sessionId) {
        records := records - {hash(sessionId)};
      }
      PruneStale(now);
    }
  }

  /** Pruning takes the records whose heartbeat is more than 43 200 000 milliseconds back, and changes none. */
  lemma PrunedExactly(records: Records, now: nat, k: string)
    ensures k in Pruned(records, now) <==>
            k in records && !(records[k].Active? && records[k].heartbeatAt + 43_200_000 < now)
    ensures k in Pruned(records, now) ==> Pruned(records, now)[k] == records[k]
  {
  }

  /** Between `i` and `j` is what is left of the text without the white space around it. */
  ghost predicate Core(text: string, i: nat, j: nat) {
    && i < j <= |text| && !Text.IsWhitespace(text[i]) && !Text.IsWhitespace(text[j - 1])
    && forall k | 0 <= k < i || j <= k < |text| :: Text.IsWhitespace(text[k])
  }

  /** A session counts if its id has something but white space in it, and not just `unknown`. */
  lemma RealSessionExactly(sessionId: string)
    ensures HasRealSessionId(sessionId) <==> exists i: nat, j: nat :: Core(sessionId, i, j) && sessionId[i..j] != "unknown"
  {
    var i, j := Text.TrimExactly(sessionId);
    if a: nat, b: nat :| Core(sessionId, a, b) {
      assert a == i && b == j;
    } else {
      assert i < j ==> Core(sessionId, i, j);
    }
  }

  // What becomes of one session's record.

  /** The event is about the session of this hash. */
  predicate Own(e: Event, k: string, hash: string -> string) {
    HasRealSessionId(e.sessionId) && hash(e.sessionId) == k
  }

  /** Only a write without a real session leaves stale records where they are. */
  predicate Prunes(e: Event) {
    e.Remove? || HasRealSessionId(e.sessionId)
  }

  /**
   * A record that is nobody's business but its session's survives others exactly while it is not stale, and never
   * changes.
   */
  lemma {:induction false} SurvivesOthersExactly(records: Records, events: seq<Event>, k: string,
                                                 hash: string -> string)
    requires k in records && forall i | 0 <= i < |events| :: !Own(events[i], k, hash)
    ensures k in Run(records, events, hash) <==>
            forall i | 0 <= i < |events| && Prunes(events[i]) :: !Stale(records[k], events[i].now)
    ensures k in Run(records, events, hash) ==> Run(records, events, hash)[k] == records[k]
    decreases |events|
  {
    if events != [] {
      var next := Apply(records, events[0], hash);
      assert forall i | 0 < i < |events| :: events[i] == events[1..][i - 1];
      if k in next {
        SurvivesOthersExactly(next, events[1..], k, hash);
        assert forall i | 0 <= i < |events[1..]| :: events[1..][i] == events[i + 1];
      } else {
        NeverComesBack(next, events[1..], k, hash);
      }
    }
  }

  lemma {:induction false} NeverComesBack(records: Records, events: seq<Event>, k: string, hash: string -> string)
    requires k !in records && forall i | 0 <= i < |events| :: !Own(events[i], k, hash)
    ensures k !in Run(records, events, hash)
    decreases |events|
  {
    if events != [] {
      assert forall i | 0 <= i < |events[1..]| :: events[1..][i] == events[i + 1];
      NeverComesBack(Apply(records, events[0], hash), events[1..], k, hash);
    }
  }

  /** So a malformed record outlives every pruning. */
  lemma MalformedSurvives(records: Records, events: seq<Event>, k: string, hash: string -> string)
    requires k in records && records[k].Malformed? && forall i | 0 <= i < |events| :: !Own(events[i], k, hash)
    ensures k in Run(records, events, hash) && Run(records, events, hash)[k] == records[k]
  {
    SurvivesOthersExactly(records, events, k, hash);
  }

  /** The heartbeat that a session's record has after an event. */
  function HeartbeatAfter(heartbeat: nat, e: Event, k: string, hash: string -> string): nat {
    if Own(e, k, hash) then e.now else heartbeat
  }

  /** The session does not end, and nobody comes by more than twelve hours after its last heartbeat. */
  predicate KeptUp(heartbeat: nat, events: seq<Event>, k: string, hash: string -> string)
    decreases |events|
  {
    events == [] ||
    (&& !(events[0].Remove? && Own(events[0], k, hash))
     && (Prunes(events[0]) ==> events[0].now <= heartbeat + STALE_TIMEOUT)
     && KeptUp(HeartbeatAfter(heartbeat, events[0], k, hash), events[1..], k, hash))
  }

  /** While a session keeps up its heartbeat, its record stays and keeps the time it was started at. */
  lemma {:induction false} StartedAtConstant(records: Records, events: seq<Event>, k: string, hash: string -> string)
    requires k in records && records[k].Active? && KeptUp(records[k].heartbeatAt, events, k, hash)
    ensures var r := Run(records, events, hash);
            k in r && r[k].Active? && r[k].startedAt == records[k].startedAt
    decreases |events|
  {
    if events != [] {
      StartedAtConstant(Apply(records, events[0], hash), events[1..], k, hash);
    }
  }

  /** A later heartbeat keeps the starting time exactly when the record was readable and not yet stale. */
  lemma RestartExactly(records: Records, e: Event, k: string, hash: string -> string)
    requires e.Write? && Own(e, k, hash) && k in records && (records[k].Active? ==> records[k].startedAt != e.nowText)
    ensures var r := Apply(records, e, hash);
            && k in r && r[k].Active? && r[k].heartbeatAt == e.now
            && (r[k].startedAt == e.nowText <==> records[k].Malformed? || Stale(records[k], e.now))
            && (r[k].startedAt != e.nowText ==> r[k].startedAt == records[k].startedAt)
  {
  }

  /** No event changes the contents of another session's record. */
  lemma OthersUntouched(records: Records, e: Event, k: string, hash: string -> string)
    requires !Own(e, k, hash)
    ensures var r := Apply(records, e, hash);
            && (k in r ==> k in records && r[k] == records[k])
            && (k in records && k !in r ==> Stale(records[k], e.now))
  {
  }
}
