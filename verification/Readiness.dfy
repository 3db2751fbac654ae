/** Waiting for a started daemon to answer, with a deadline that reported progress extends. */
module Readiness {
  import opened Wrappers

  const MAX_U64: nat := 0xffff_ffff_ffff_ffff

  type Millis = n: nat | n <= MAX_U64 witness 0

  const BASE_TIMEOUT: Millis := 5_000
  const EXTENDED_TIMEOUT: Millis := 30_000
  const PROGRESS_STALE_TIMEOUT: Millis := 5_000

  function SaturatingAdd(a: Millis, b: Millis): (r: Millis)
    ensures r <= a + b && (r < a + b ==> r == MAX_U64)
  {
    if a + b > MAX_U64 then MAX_U64 else a + b
  }

  datatype Startup = Startup(instance: string, pid: nat, startedAt: Millis)

  datatype Progress = Progress(instance: string, pid: nat, updatedAt: Millis)

  /** What one round of the loop sees. */
  datatype Poll = Poll(now: Millis, healthy: bool, progress: Option<Progress>, processMatches: bool)

  datatype Verdict = Ready | GaveUp | Waiting

  function BaseDeadline(startup: Startup): Millis { SaturatingAdd(startup.startedAt, BASE_TIMEOUT) }

  function ExtendedDeadline(startup: Startup): Millis { SaturatingAdd(startup.startedAt, EXTENDED_TIMEOUT) }

  predicate ProgressMatches(progress: Progress, startup: Startup) {
    progress.instance == startup.instance && progress.pid == startup.pid && progress.updatedAt >= startup.startedAt
  }

  predicate ProgressIsFresh(progress: Progress, now: Millis) {
    SaturatingAdd(progress.updatedAt, PROGRESS_STALE_TIMEOUT) >= now
  }

  /** The daemon is seen to be at work on starting up. */
  predicate Working(poll: Poll, startup: Startup) {
    poll.progress.Some? && ProgressMatches(poll.progress.value, startup) && ProgressIsFresh(poll.progress.value, poll.now)
    && poll.processMatches
  }

  /** The deadline that counts for a poll. */
  function Effective(poll: Poll, deadline: Millis, startup: Option<Startup>): Millis {
    if startup.Some? && Working(poll, startup.value) && ExtendedDeadline(startup.value) > deadline
    then ExtendedDeadline(startup.value) else deadline
  }

  /** A restart is answered for even after its deadline; a plain wait is not. */
  function Settles(poll: Poll, deadline: Millis, startup: Option<Startup>): Verdict {
    if poll.healthy && (startup.Some? || poll.now <= deadline) then Ready
    else if poll.now > Effective(poll, deadline, startup) then GaveUp
    else Waiting
  }

  /** Of the polls, the one that settles the wait and how; `None` while none does. */
  function Outcome(polls: seq<Poll>, deadline: Millis, startup: Option<Startup>): Verdict {
    if polls == [] then Waiting
    else if Settles(polls[0], deadline, startup) != Waiting then Settles(polls[0], deadline, startup)
    else Outcome(polls[1..], deadline, startup)
  }

  /** The first poll that settles it, for any sequence of polls; `Waiting` if none does. */
  method WaitForDaemonReady(polls: seq<Poll>, deadline: Millis, startup: Option<Startup>) returns (r: Verdict, i: nat)
    ensures i <= |polls| && (r == Waiting <==> i == |polls|)
    ensures forall j | 0 <= j < i :: Settles(polls[j], deadline, startup) == Waiting
    ensures i < |polls| ==> r == Settles(polls[i], deadline, startup)
    ensures r == Outcome(polls, deadline, startup)
  {
    i := 0;
    while i < |polls|
      invariant i <= |polls|
      invariant forall j | 0 <= j < i :: Settles(polls[j], deadline, startup) == Waiting
      invariant Outcome(polls[i..], deadline, startup) == Outcome(polls, deadline, startup)
    {
      assert polls[i..][1..] == polls[i + 1..];
      var now := polls[i].now;
      if startup.None? && now > deadline {
        return GaveUp, i;
      }
      if polls[i].healthy {
        return Ready, i;
      }
      if startup.Some? {
        var effective := deadline;
        var progress := polls[i].progress;
        if progress.Some? && ProgressMatches(progress.value, startup.value) {
          if ProgressIsFresh(progress.value, now) && polls[i].processMatches {
            var extended := ExtendedDeadline(startup.value);
            effective := if effective < extended then extended else effective;
          }
        }
        if now > effective {
          return GaveUp, i;
        }
      }
      i := i + 1;
    }
    r := Waiting;
  }

  lemma {:induction false} OutcomeIsFirst(polls: seq<Poll>, deadline: Millis, startup: Option<Startup>)
    ensures Outcome(polls, deadline, startup) == Waiting <==>
            forall i | 0 <= i < |polls| :: Settles(polls[i], deadline, startup) == Waiting
    ensures Outcome(polls, deadline, startup) == GaveUp ==>
            exists i | 0 <= i < |polls| :: Settles(polls[i], deadline, startup) == GaveUp
    decreases |polls|
  {
    if polls != [] {
      OutcomeIsFirst(polls[1..], deadline, startup);
      assert forall i | 0 < i < |polls| :: polls[i] == polls[1..][i - 1];
      assert forall i | 0 <= i < |polls[1..]| :: polls[1..][i] == polls[i + 1];
    }
  }

  /**
   * A starting daemon is given up on at a poll after the base deadline, and while it is at work only after the
   * extended one.
   */
  lemma GivesUpLate(poll: Poll, startup: Startup)
    requires Settles(poll, BaseDeadline(startup), Some(startup)) == GaveUp
    ensures !poll.healthy && poll.now > BaseDeadline(startup) >= startup.startedAt
    ensures BaseDeadline(startup) < MAX_U64 && poll.now > startup.startedAt + BASE_TIMEOUT
    ensures Working(poll, startup) ==> poll.now > startup.startedAt + EXTENDED_TIMEOUT
  {
  }

  /** The first poll after the extended deadline settles the wait at the latest. */
  lemma SettledByExtendedDeadline(poll: Poll, startup: Startup)
    requires poll.now > ExtendedDeadline(startup)
    ensures Settles(poll, BaseDeadline(startup), Some(startup)) != Waiting
  {
  }

  /** In numbers: progress of this very start, reported in the last five seconds, by a process that is the daemon's. */
  predicate SeenAtWork(poll: Poll, startup: Startup) {
    && poll.processMatches && poll.progress.Some?
    && var p := poll.progress.value;
       && p.instance == startup.instance && p.pid == startup.pid
       && startup.startedAt <= p.updatedAt && poll.now <= p.updatedAt + 5000
  }

  /** Five seconds, or thirty while it is seen at work; an answer ends the wait at any time. */
  lemma SettlesExactly(poll: Poll, startup: Startup)
    ensures var verdict := Settles(poll, BaseDeadline(startup), Some(startup));
            && (verdict == Ready <==> poll.healthy)
            && (verdict == GaveUp <==>
                  !poll.healthy && poll.now > startup.startedAt + 5000
                  && (SeenAtWork(poll, startup) ==> poll.now > startup.startedAt + 30_000))
  {
    assert Working(poll, startup) <==> SeenAtWork(poll, startup);
  }

  /** Without a start to wait for, the deadline comes first, then the answer. */
  lemma PlainlySettlesExactly(poll: Poll, deadline: Millis)
    ensures Settles(poll, deadline, None) ==
            if poll.now > deadline then GaveUp else if poll.healthy then Ready else Waiting
  {
  }

  predicate Advancing(polls: seq<Poll>) {
    forall i | 0 < i < |polls| :: polls[i - 1].now < polls[i].now
  }

  lemma {:induction false} ClockGains(polls: seq<Poll>, i: nat)
    requires Advancing(polls) && i < |polls|
    ensures polls[i].now >= polls[0].now + i
  {
    if i > 0 {
      ClockGains(polls, i - 1);
    }
  }

  predicate Saturates(startup: Startup) { startup.startedAt + EXTENDED_TIMEOUT >= MAX_U64 }

  /** A daemon that never answers and always seems at work. */
  predicate Stuck(polls: seq<Poll>, startup: Startup) {
    forall i | 0 <= i < |polls| :: !polls[i].healthy && Working(polls[i], startup)
  }

  /** Polls within the extended deadline at which a stuck daemon seems at work, one each millisecond. */
  function StuckPolls(startup: Startup, n: nat): (polls: seq<Poll>)
    requires startup.startedAt + n <= MAX_U64 + 1
    ensures |polls| == n && Advancing(polls) && Stuck(polls, startup)
    ensures forall i | 0 <= i < n :: polls[i].now == startup.startedAt + i
  {
    seq(n, i requires 0 <= i < n =>
      Poll(startup.startedAt + i, false, Some(Progress(startup.instance, startup.pid, startup.startedAt + i)), true))
  }

  /** Waiting for a started daemon ends on every clock that gets past the extended deadline. */
  lemma Terminates(polls: seq<Poll>, startup: Startup)
    requires polls != [] && polls[|polls| - 1].now > ExtendedDeadline(startup)
    ensures Outcome(polls, BaseDeadline(startup), Some(startup)) != Waiting
  {
    SettledByExtendedDeadline(polls[|polls| - 1], startup);
    OutcomeIsFirst(polls, BaseDeadline(startup), Some(startup));
  }

  ghost predicate Abandoned(polls: seq<Poll>, startup: Startup) {
    Advancing(polls) && Stuck(polls, startup) && Outcome(polls, BaseDeadline(startup), Some(startup)) == GaveUp
  }

  /** A daemon stuck in starting up can be given up on exactly when the extended deadline is not the end of time. */
  lemma AbandonedExactly(startup: Startup)
    ensures (exists polls :: Abandoned(polls, startup)) <==> !Saturates(startup)
  {
    if Saturates(startup) {
      forall polls: seq<Poll> ensures !Abandoned(polls, startup) {
        OutcomeIsFirst(polls, BaseDeadline(startup), Some(startup));
      }
    } else {
      var polls := StuckPolls(startup, EXTENDED_TIMEOUT + 2);
      Terminates(polls, startup);
      NeverReady(polls, startup);
      assert Abandoned(polls, startup);
    }
  }

  lemma {:induction false} NeverReady(polls: seq<Poll>, startup: Startup)
    requires Stuck(polls, startup)
    ensures Outcome(polls, BaseDeadline(startup), Some(startup)) != Ready
    decreases |polls|
  {
    if polls != [] {
      assert forall i | 0 <= i < |polls[1..]| :: polls[1..][i] == polls[i + 1];
      NeverReady(polls[1..], startup);
    }
  }

  /** In numbers: so many strictly advancing polls are always enough. */
  lemma EnoughPolls(polls: seq<Poll>, startup: Startup)
    requires Advancing(polls) && polls != [] && !Saturates(startup)
    requires polls[0].now + |polls| > startup.startedAt + EXTENDED_TIMEOUT + 1
    ensures Outcome(polls, BaseDeadline(startup), Some(startup)) != Waiting
  {
    ClockGains(polls, |polls| - 1);
    Terminates(polls, startup);
  }

  /** The extension is used to the full: a daemon at work all the time is waited for up to the extended deadline. */
  lemma PatientWhileWorking(polls: seq<Poll>, startup: Startup)
    requires forall i | 0 <= i < |polls| :: Working(polls[i], startup) && polls[i].now <= ExtendedDeadline(startup)
    ensures Outcome(polls, BaseDeadline(startup), Some(startup)) != GaveUp
  {
    OutcomeIsFirst(polls, BaseDeadline(startup), Some(startup));
  }

  // The other adapter's plainer wait.

  /** What one round sees: the time, the ping, and whether the process of the pid file, if any, is alive. */
  datatype PlainPoll = PlainPoll(now: Millis, healthy: bool, pidAlive: Option<bool>)

  /** A dead process ends the wait, and so does the deadline, even if the daemon would answer after it. */
  function PlainSettles(poll: PlainPoll, deadline: Millis): Verdict {
    if poll.now > deadline then GaveUp
    else if poll.healthy then Ready
    else if poll.pidAlive == Some(false) then GaveUp
    else Waiting
  }

  method PlainWait(polls: seq<PlainPoll>, deadline: Millis) returns (r: Verdict, i: nat)
    ensures i <= |polls| && (r == Waiting <==> i == |polls|)
    ensures forall j | 0 <= j < i :: PlainSettles(polls[j], deadline) == Waiting
    ensures i < |polls| ==> r == PlainSettles(polls[i], deadline)
  {
    i := 0;
    while i < |polls| && polls[i].now <= deadline
      invariant i <= |polls|
      invariant forall j | 0 <= j < i :: PlainSettles(polls[j], deadline) == Waiting
    {
      if polls[i].healthy {
        return Ready, i;
      }
      if polls[i].pidAlive == Some(false) {
        return GaveUp, i;
      }
      i := i + 1;
    }
    r := if i < |polls| then GaveUp else Waiting;
  }
}
