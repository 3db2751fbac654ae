/** All sessions of one analysis core: each check touches its own session only. */
module CoreSessions {
  import opened Wrappers
  import opened GraphIndex
  import opened Sessions
  import opened CoreRuns
  import opened RunProperties

  type SessionMap = map<string, Session>

  ghost predicate AllIndexed(sessions: SessionMap) {
    forall id | id in sessions :: WellIndexed(sessions[id].graph)
  }

  function Lookup(sessions: SessionMap, id: string): Session {
    if id in sessions then sessions[id] else NEW_SESSION
  }

  /** Only the given session may differ. */
  ghost predicate OthersKept(before: SessionMap, after: SessionMap, own: string) {
    forall id | id != own :: Lookup(after, id) == Lookup(before, id)
  }

  lemma StoreKeepsOthers(sessions: SessionMap, own: string, session: Session)
    ensures OthersKept(sessions, sessions[own := session], own) && OthersKept(sessions, sessions, own)
    ensures AllIndexed(sessions) && WellIndexed(session.graph) ==> AllIndexed(sessions[own := session])
  {
  }

  lemma LookupIndexed(sessions: SessionMap, id: string)
    requires AllIndexed(sessions)
    ensures WellIndexed(Lookup(sessions, id).graph)
  {
    EmptyIsWellIndexed();
  }

  /** A session that was never heard of has nothing to reconcile. */
  lemma NewSessionIsPrepared(request: RuntimeRequest, parse: Parser)
    ensures WellIndexed(NEW_SESSION.graph) && ReconcileBefore(NEW_SESSION, request, parse) == (NEW_SESSION, None)
  {
    EmptyIsWellIndexed();
  }

  class ShellQueryCore {
    var sessions: SessionMap
    const parse: Parser

    ghost predicate Valid()
      reads this
    {
      AllIndexed(sessions)
    }

    constructor (parse: Parser)
      ensures Valid() && sessions == map[] && this.parse == parse
    {
      this.parse := parse;
      sessions := map[];
    }

    /** Brings the remembered shell state up to date, then numbers the request; an error changes nothing. */
    method PrepareRuntimeCheck(request: RuntimeRequest) returns (r: Result<Request, CommitError>)
      requires Valid()
      modifies `sessions
      ensures Valid()
      ensures WellIndexed(Lookup(old(sessions), request.sessionId).graph)
      ensures var (prepared, error) := ReconcileBefore(Lookup(old(sessions), request.sessionId), request, parse);
              && Lookup(sessions, request.sessionId) == prepared
              && r == (if error.Some? then Failure(error.value)
                       else Success(Numbered(request, NextSequenceNo(prepared.summary))))
      ensures OthersKept(old(sessions), sessions, request.sessionId)
    {
      LookupIndexed(sessions, request.sessionId);
      var session := Lookup(sessions, request.sessionId);
      var (prepared, error) := ReconcileBefore(session, request, parse);
      ReconcileWellIndexed(session, request, parse);
      NewSessionIsPrepared(request, parse);
      StoreKeepsOthers(sessions, request.sessionId, prepared);
      if request.sessionId in sessions {
        sessions := sessions[request.sessionId := prepared];
      }
      r := if error.Some? then Failure(error.value) else Success(Numbered(request, NextSequenceNo(prepared.summary)));
    }

    /** Commits what is allowed, merely observes what is not. */
    method TryCheck(request: Request, verdict: Verdict) returns (error: Option<CommitError>)
      requires Valid()
      modifies `sessions
      ensures Valid()
      ensures WellIndexed(Lookup(old(sessions), request.sessionId).graph)
      ensures (Lookup(sessions, request.sessionId), error)
           == Check(Lookup(old(sessions), request.sessionId), request, verdict)
      ensures OthersKept(old(sessions), sessions, request.sessionId)
    {
      LookupIndexed(sessions, request.sessionId);
      var session := Lookup(sessions, request.sessionId);
      CheckWellIndexed(session, request, verdict);
      var (after, failed) := Check(session, request, verdict);
      StoreKeepsOthers(sessions, request.sessionId, after);
      sessions := sessions[request.sessionId := after];
      error := failed;
    }

    method CheckRuntime(request: RuntimeRequest, verdict: Verdict) returns (outcome: Outcome)
      requires Valid()
      modifies `sessions
      ensures Valid()
      ensures WellIndexed(Lookup(old(sessions), request.sessionId).graph)
      ensures (Lookup(sessions, request.sessionId), outcome)
           == CoreRuns.CheckRuntime(Lookup(old(sessions), request.sessionId), request, parse, verdict)
      ensures OthersKept(old(sessions), sessions, request.sessionId)
    {
      var prepared := PrepareRuntimeCheck(request);
      if prepared.Failure? {
        return NotPrepared(prepared.error);
      }
      var error := TryCheck(prepared.value, verdict);
      outcome := if error.Some? then NotCommitted(prepared.value.sequenceNo, error.value)
                 else Checked(prepared.value.sequenceNo, verdict.allow);
    }
  }

  // Many sessions at once.

  function RunAll(events: seq<Event>, parse: Parser): (r: SessionMap)
    ensures AllIndexed(r)
  {
    if events == [] then map[]
    else
      var sessions, last := RunAll(events[..|events| - 1], parse), events[|events| - 1];
      LookupIndexed(sessions, last.request.sessionId);
      sessions[last.request.sessionId :=
        CoreRuns.CheckRuntime(Lookup(sessions, last.request.sessionId), last.request, parse, last.verdict).0]
  }

  function Only(events: seq<Event>, id: string): seq<Event> {
    if events == [] then []
    else
      var last := events[|events| - 1];
      Only(events[..|events| - 1], id) + (if last.request.sessionId == id then [last] else [])
  }

  /** What becomes of a session depends on its own requests only, however they are interleaved with others. */
  lemma {:induction false} SessionsApart(events: seq<Event>, id: string, parse: Parser)
    ensures Lookup(RunAll(events, parse), id) == Run(Only(events, id), parse).0
  {
    if events != [] {
      var front, last := events[..|events| - 1], events[|events| - 1];
      SessionsApart(front, id, parse);
      var own := Only(events, id);
      if last.request.sessionId == id {
        assert own[..|own| - 1] == Only(front, id);
      } else {
        assert own == Only(front, id);
      }
    }
  }

  /** So every session of a core has the anchors of its own allowed numbers, and only those. */
  lemma CoreKeeps(events: seq<Event>, id: string, parse: Parser)
    requires HonestRun(id, Only(events, id), parse)
    ensures Kept(id, Lookup(RunAll(events, parse), id), Run(Only(events, id), parse).1)
  {
    SessionsApart(events, id, parse);
    RunKeeps(id, Only(events, id), parse);
  }
}
