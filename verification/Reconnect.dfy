/**
  The viewer's reconnect supervisor. Its asynchronous loop is cut at the points where it waits: each
  method is the code that runs without interruption from one wait to the next. Instants are whole
  milliseconds of the wall clock, which does not run backwards; timers never fire early.
 */
module Reconnect {
  import opened Base

  datatype Phase = Connecting | Connected | Reconnecting | GaveUp | Closed

  datatype Failure = Failure(at: int, error: string)

  /** What the loop is waiting for. */
  datatype Await = NotRunning | Sleeping(until: int) | Trying | Open

  const SCHEDULE: seq<int> := [1000, 2000, 5000, 10000, 30000]
  const GIVE_UP_AFTER: int := 300000
  const HISTORY: nat := 5

  function Nominal(attempt: nat): int {
    if attempt < |SCHEDULE| then SCHEDULE[attempt] else SCHEDULE[|SCHEDULE| - 1]
  }

  /** The jittered delay, rounded half up; `rng` is the random number drawn. */
  function Backoff(attempt: nat, rng: real): int {
    (Nominal(attempt) as real * (0.8 + 0.4 * rng) + 0.5).Floor
  }

  /** Jitter moves the delay by at most a fifth either way. */
  lemma BackoffWithinAFifth(attempt: nat, rng: real)
    requires 0.0 <= rng <= 1.0
    ensures 4 * Nominal(attempt) <= 5 * Backoff(attempt, rng) <= 6 * Nominal(attempt)
    ensures rng == 0.0 ==> 5 * Backoff(attempt, rng) == 4 * Nominal(attempt)
  {
    var b := Nominal(attempt);
    assert b in [1000, 2000, 5000, 10000, 30000];
    assert 0.8 * b as real <= b as real * (0.8 + 0.4 * rng) <= 1.2 * b as real;
  }

  /** The delay is the jittered one, rounded to the nearest millisecond: its factor goes evenly from 0.8 to 1.2 with the
      random number drawn, on 1, 2, 5, 10 and then always 30 seconds. */
  lemma BackoffIsJittered(attempt: nat, rng: real)
    requires 0.0 <= rng <= 1.0
    ensures var seconds := if attempt == 0 then 1 else if attempt == 1 then 2 else if attempt == 2 then 5
                           else if attempt == 3 then 10 else 30;
            var exact := 1000.0 * seconds as real * (0.8 + 0.4 * rng);
            exact - 0.5 < Backoff(attempt, rng) as real <= exact + 0.5
  {
    assert Nominal(attempt) in [1000, 2000, 5000, 10000, 30000];
  }

  /** The least time `n` delays in a row can take when the first is the schedule's first entry. */
  function LeastElapsed(n: nat): int {
    if n == 0 then 0 else LeastElapsed(n - 1) + 4 * Nominal(n - 1) / 5
  }

  lemma {:induction false} LeastElapsedInTheTail(n: nat)
    requires n >= 4
    ensures LeastElapsed(n) == 14400 + 24000 * (n - 4)
  {
    if n == 4 {
      assert LeastElapsed(1) == 800 && LeastElapsed(2) == 2400 && LeastElapsed(3) == 6400;
    } else {
      LeastElapsedInTheTail(n - 1);
    }
  }

  /** Fifteen delays fit before the deadline, sixteen never do. */
  lemma FifteenDelaysFit(n: nat)
    ensures LeastElapsed(n) < 300000 <==> n <= 15
  {
    if n >= 4 {
      LeastElapsedInTheTail(n);
    } else {
      assert LeastElapsed(1) == 800 && LeastElapsed(2) == 2400 && LeastElapsed(3) == 6400;
    }
  }

  /** When the back-off sleep ends: after the jittered delay, but no later than the deadline. */
  function WakeAt(now: int, deadline: int, attempt: nat, rng: real): int {
    var remaining := if deadline - now > 0 then deadline - now else 0;
    now + if Backoff(attempt, rng) <= remaining then Backoff(attempt, rng) else remaining
  }

  /** The loop wakes after the jittered delay, or at the deadline if that comes first, or at once if it has passed. */
  lemma WakesAfterTheDelay(now: int, deadline: int, attempt: nat, rng: real)
    requires 0.0 <= rng <= 1.0
    ensures now + Backoff(attempt, rng) <= deadline ==>
              WakeAt(now, deadline, attempt, rng) == now + Backoff(attempt, rng)
    ensures now <= deadline <= now + Backoff(attempt, rng) ==> WakeAt(now, deadline, attempt, rng) == deadline
    ensures deadline <= now ==> WakeAt(now, deadline, attempt, rng) == now
  {
    BackoffWithinAFifth(attempt, rng);
  }

  /** A sleep before the deadline lasts at least the schedule's share for the attempts made so far. */
  lemma SleepLastsLongEnough(n: nat, attempt: nat, since: int, now: int, deadline: int, rng: real)
    requires 0.0 <= rng <= 1.0 && n <= attempt && since + LeastElapsed(n) <= now < deadline
    ensures now <= WakeAt(now, deadline, attempt, rng) <= deadline
    ensures WakeAt(now, deadline, attempt, rng) == deadline
            || WakeAt(now, deadline, attempt, rng) >= since + LeastElapsed(n + 1)
  {
    BackoffWithinAFifth(attempt, rng);
    assert Nominal(n) <= Nominal(attempt);
  }

  /** The last `HISTORY` entries of a log. */
  function Recent(log: seq<Failure>): seq<Failure> {
    if |log| <= HISTORY then log else log[|log| - HISTORY..]
  }

  /** At most five failures are remembered, the latest ones, in order. */
  lemma FiveFailuresAreRemembered(log: seq<Failure>)
    ensures |Recent(log)| == (if |log| < 5 then |log| else 5)
    ensures Recent(log) == log[|log| - |Recent(log)|..]
  {
  }

  class Supervisor {
    var phase: Phase
    var attempt: nat
    var lastError: string
    var attemptHistory: seq<Failure>
    var gaveUpAt: Option<int>
    var stopped: bool
    var giveUpAt: Option<int>
    var at: Await
    var clock: int                    // the wall clock at the latest event
    ghost var failures: seq<Failure>  // every failed attempt and every lost connection so far
    ghost var starts: seq<int>        // when attempts began since the deadline was set

    ghost predicate Valid()
      reads this
    {
      && attemptHistory == Recent(failures)
      && (phase.Connecting? ==> attempt == 0)
      && (giveUpAt.None? ==> starts == [])
      && (giveUpAt.Some? ==> Window(giveUpAt.value))
      && (at.Sleeping? ==> giveUpAt.Some? && at.until >= clock)
      && (at.Open? ==> giveUpAt.None?)
    }

    /** The deadline is set: attempts so far began before it, each no earlier than the least delays allow,
        and the attempt counter has kept pace. */
    ghost predicate Window(deadline: int)
      reads this
    {
      var since := deadline - GIVE_UP_AFTER;
      && attempt > |starts| - (if at.Trying? then 1 else 0)
      && attempt > 0
      && since + LeastElapsed(|starts|) <= clock
      && (forall t | t in starts :: t < deadline)
      && |starts| <= 15
      && (at.Sleeping? ==> at.until >= deadline || at.until >= since + LeastElapsed(|starts| + 1))
    }

    constructor (now: int)
      ensures Valid() && at == NotRunning && phase == Connecting && attempt == 0 && !stopped
      ensures giveUpAt == None && failures == [] && clock == now
    {
      phase, attempt, lastError, attemptHistory, gaveUpAt := Connecting, 0, "", [], None;
      stopped, giveUpAt, at := false, None, NotRunning;
      clock, failures, starts := now, [], [];
    }

    /** From the head of the loop to its next wait. */
    method LoopHead(now: int, rng: real)
      requires Valid() && at == NotRunning && now >= clock && 0.0 <= rng <= 1.0
      modifies this`phase, this`gaveUpAt, this`giveUpAt, this`at, this`clock, this`starts
      ensures Valid() && clock == now && failures == old(failures) && attempt == old(attempt)
      ensures stopped == old(stopped)
      ensures if stopped then
                at == NotRunning && phase == old(phase) && giveUpAt == old(giveUpAt) && starts == old(starts)
              else if old(giveUpAt).Some? && now >= old(giveUpAt).value then
                at == NotRunning && phase == GaveUp && giveUpAt == old(giveUpAt) && starts == old(starts)
                && gaveUpAt == Some(now)
              else if attempt == 0 then
                at == Trying && giveUpAt == None && starts == [] && phase == old(phase)
              else
                && giveUpAt == (if old(giveUpAt).None? then Some(now + 300000) else old(giveUpAt))
                && starts == old(starts) && phase == old(phase)
                && at == Sleeping(WakeAt(now, giveUpAt.value, attempt - 1, rng))
    {
      clock := now;
      if stopped {
        return;
      }
      if giveUpAt.Some? && now >= giveUpAt.value {
        phase, gaveUpAt := GaveUp, Some(now);
        return;
      }
      if phase != Connecting && attempt > 0 {
        if giveUpAt.None? {
          giveUpAt := Some(now + GIVE_UP_AFTER);
        }
        SleepLastsLongEnough(|starts|, attempt - 1, giveUpAt.value - GIVE_UP_AFTER, now, giveUpAt.value, rng);
        var baseDelay := Backoff(attempt - 1, rng);
        var remaining := if giveUpAt.value - now > 0 then giveUpAt.value - now else 0;
        var delay := if baseDelay <= remaining then baseDelay else remaining;
        at := Sleeping(now + delay);
        return;
      }
      at := Trying;
    }

    /** The back-off timer fires: a new attempt strictly before the deadline, or giving up. */
    method TimerFires(now: int)
      requires Valid() && at.Sleeping? && now >= clock && now >= at.until && !stopped
      modifies this`phase, this`gaveUpAt, this`at, this`clock, this`starts
      ensures Valid() && clock == now && failures == old(failures) && attempt == old(attempt) && !stopped
      ensures giveUpAt == old(giveUpAt)
      ensures if now >= giveUpAt.value then
                at == NotRunning && phase == GaveUp && gaveUpAt == Some(now) && starts == old(starts)
              else
                at == Trying && phase == old(phase) && starts == old(starts) + [now]
    {
      clock := now;
      if giveUpAt.Some? && now >= giveUpAt.value {
        phase, gaveUpAt, at := GaveUp, Some(now), NotRunning;
        return;
      }
      at := Trying;
      starts := starts + [now];
      FifteenDelaysFit(|starts|);
    }

    /** Bookkeeping common to a failed attempt and a lost connection. */
    method RecordFailure(now: int, error: string)
      requires attemptHistory == Recent(failures)
      modifies this`phase, this`attempt, this`lastError, this`attemptHistory, this`failures
      ensures phase == Reconnecting && attempt == old(attempt) + 1 && lastError == error
      ensures failures == old(failures) + [Failure(now, error)] && attemptHistory == Recent(failures)
    {
      phase := Reconnecting;
      attempt := attempt + 1;
      lastError := error;
      attemptHistory := attemptHistory + [Failure(now, error)];
      failures := failures + [Failure(now, error)];
      if |attemptHistory| > HISTORY {
        attemptHistory := attemptHistory[1..];
      }
    }

    /** Token refresh or connect fails; the loop goes round unless it was stopped meanwhile. */
    method AttemptFails(now: int, error: string, rng: real)
      requires Valid() && at == Trying && now >= clock && 0.0 <= rng <= 1.0
      modifies this
      ensures Valid() && clock == now && failures == old(failures) + [Failure(now, error)]
      ensures attempt == old(attempt) + 1 && starts == old(starts) && stopped == old(stopped)
      ensures lastError == error
      ensures stopped ==> at == NotRunning && phase == Reconnecting && giveUpAt == old(giveUpAt)
      ensures !stopped ==>
                if old(giveUpAt).Some? && now >= old(giveUpAt).value then
                  at == NotRunning && phase == GaveUp && gaveUpAt == Some(now) && giveUpAt == old(giveUpAt)
                else
                  && giveUpAt == (if old(giveUpAt).None? then Some(now + 300000) else old(giveUpAt))
                  && at == Sleeping(WakeAt(now, giveUpAt.value, attempt - 1, rng)) && phase == Reconnecting
    {
      RecordFailure(now, error);
      clock, at := now, NotRunning;
      if stopped {
        return;
      }
      LoopHead(now, rng);
    }

    /** The connection is up: the deadline is lifted, the attempt counter stays. */
    method AttemptSucceeds(now: int)
      requires Valid() && at == Trying && now >= clock
      modifies this`phase, this`lastError, this`giveUpAt, this`at, this`clock, this`starts
      ensures Valid() && clock == now && at == Open && phase == Connected && lastError == ""
      ensures giveUpAt == None && starts == [] && attempt == old(attempt) && failures == old(failures)
      ensures stopped == old(stopped)
    {
      clock, at, phase, lastError := now, Open, Connected, "";
      giveUpAt, starts := None, [];
    }

    /** The connection is gone; a fresh deadline starts running, whatever came before. */
    method ConnectionCloses(now: int, error: string, rng: real)
      requires Valid() && at == Open && now >= clock && 0.0 <= rng <= 1.0
      modifies this
      ensures Valid() && clock == now && failures == old(failures) + [Failure(now, error)]
      ensures attempt == old(attempt) + 1 && starts == [] && stopped == old(stopped)
      ensures stopped ==> at == NotRunning && phase == Reconnecting && giveUpAt == None
      ensures lastError == error
      ensures !stopped ==> giveUpAt == Some(now + 300000) && phase == Reconnecting
                           && at == Sleeping(WakeAt(now, now + 300000, attempt - 1, rng))
    {
      RecordFailure(now, error);
      clock, at := now, NotRunning;
      if stopped {
        return;
      }
      LoopHead(now, rng);
    }

    /** Stopping ends a sleep for good; an attempt in flight or an open connection runs on to its next wait. */
    method Stop(now: int)
      requires Valid() && now >= clock
      modifies this`phase, this`stopped, this`at, this`clock
      ensures Valid() && clock == now && stopped && phase == Closed
      ensures at == if old(at).Sleeping? then NotRunning else old(at)
      ensures giveUpAt == old(giveUpAt) && starts == old(starts) && failures == old(failures)
      ensures attempt == old(attempt)
    {
      clock, stopped, phase := now, true, Closed;
      if at.Sleeping? {
        at := NotRunning;
      }
    }

    /** Retrying after giving up: the next attempt begins at once and without a deadline. */
    method Retry(now: int, rng: real)
      requires Valid() && at == NotRunning && now >= clock && 0.0 <= rng <= 1.0
      modifies this`phase, this`attempt, this`gaveUpAt, this`giveUpAt, this`at, this`clock, this`starts
      ensures Valid() && clock == now && attempt == 0 && giveUpAt == None && failures == old(failures)
      ensures phase == Reconnecting
      ensures stopped == old(stopped) && at == if stopped then NotRunning else Trying
    {
      giveUpAt, starts := None, [];
      phase, attempt := Reconnecting, 0;
      LoopHead(now, rng);
    }

    /** Starting, also after a stop: a first attempt begins at once, later ones keep their deadline. */
    method Begin(now: int, rng: real)
      requires Valid() && at == NotRunning && now >= clock && 0.0 <= rng <= 1.0
      modifies this`phase, this`stopped, this`gaveUpAt, this`giveUpAt, this`at, this`clock, this`starts
      ensures Valid() && clock == now && !stopped && failures == old(failures) && attempt == old(attempt)
      ensures starts == old(starts)
      ensures if old(giveUpAt).Some? && now >= old(giveUpAt).value then
                at == NotRunning && phase == GaveUp && gaveUpAt == Some(now) && giveUpAt == old(giveUpAt)
              else if attempt == 0 then
                at == Trying && giveUpAt == None && phase == old(phase)
              else
                && giveUpAt == (if old(giveUpAt).None? then Some(now + 300000) else old(giveUpAt))
                && at == Sleeping(WakeAt(now, giveUpAt.value, attempt - 1, rng)) && phase == old(phase)
    {
      stopped := false;
      LoopHead(now, rng);
    }
  }

  /** What the surroundings do to the loop: how late its `k`-th timer fires, how long the attempt after it
      takes to fail, and the random numbers it draws. */
  datatype Surroundings = Surroundings(lateness: nat -> nat, took: nat -> nat, rng: nat -> real)

  ghost predicate Fair(env: Surroundings) {
    forall k: nat :: 0.0 <= env.rng(k) <= 1.0
  }

  /** Once a deadline is set and as long as attempts fail, the loop ends in giving up, after at most
      fifteen attempts, none of them begun at or after the deadline. */
  method FailUntilGivenUp(s: Supervisor, env: Surroundings, error: string) returns (attempts: nat)
    requires s.Valid() && s.at.Sleeping? && !s.stopped && s.starts == [] && Fair(env)
    modifies s
    ensures s.Valid() && s.phase == GaveUp && s.at == NotRunning && s.giveUpAt == old(s.giveUpAt)
    ensures attempts == |s.starts| <= 15
    ensures forall t | t in s.starts :: t < s.giveUpAt.value
    ensures s.gaveUpAt.Some? && s.gaveUpAt.value >= s.giveUpAt.value
    ensures |s.failures| == old(|s.failures|) + attempts && s.attemptHistory == Recent(s.failures)
  {
    attempts := 0;
    while s.at.Sleeping?
      invariant s.Valid() && !s.stopped && s.giveUpAt == old(s.giveUpAt)
      invariant attempts == |s.starts| && |s.failures| == old(|s.failures|) + attempts
      invariant s.at.Sleeping? || (s.at == NotRunning && s.phase == GaveUp && s.gaveUpAt.Some?
                                   && s.gaveUpAt.value >= s.giveUpAt.value)
      decreases 16 - attempts, s.at.Sleeping?
    {
      s.TimerFires(s.at.until + env.lateness(attempts));
      if s.at == Trying {
        attempts := attempts + 1;
        s.AttemptFails(s.clock + env.took(attempts), error, env.rng(attempts));
      }
    }
  }

  lemma ShortestDelay(n: nat)
    ensures Backoff(n, 0.0) == LeastElapsed(n + 1) - LeastElapsed(n)
  {
    BackoffWithinAFifth(n, 0.0);
    assert Nominal(n) in [1000, 2000, 5000, 10000, 30000];
  }

  /** A refusal at once, after a punctual timer, with the shortest jitter. */
  method StruggleOnce(s: Supervisor, n: nat)
    requires s.Valid() && !s.stopped && s.giveUpAt == Some(GIVE_UP_AFTER) && s.attempt == n + 1
    requires n < 15 && s.at == Sleeping(LeastElapsed(n + 1)) && |s.starts| == n
    modifies s
    ensures s.Valid() && !s.stopped && s.giveUpAt == Some(GIVE_UP_AFTER) && s.attempt == n + 2
    ensures |s.starts| == n + 1 && |s.failures| == old(|s.failures|) + 1
    ensures s.at == Sleeping(if n + 1 < 15 then LeastElapsed(n + 2) else GIVE_UP_AFTER)
  {
    FifteenDelaysFit(n + 1);
    FifteenDelaysFit(n + 2);
    ShortestDelay(n + 1);
    s.TimerFires(s.at.until);
    s.AttemptFails(s.clock, "refused", 0.0);
  }

  /** The bound is met: with the shortest jitter, punctual timers and instant refusals there are exactly
      fifteen attempts between the first failure and giving up. */
  method LongestStruggle() returns (s: Supervisor)
    ensures fresh(s) && s.Valid() && s.phase == GaveUp && |s.starts| == 15 && |s.failures| == 16
    ensures s.gaveUpAt == Some(GIVE_UP_AFTER)
  {
    s := new Supervisor(0);
    s.Begin(0, 0.0);
    ShortestDelay(0);
    s.AttemptFails(0, "refused", 0.0);
    var n := 0;
    while n < 15
      invariant 0 <= n <= 15 && fresh(s) && s.Valid() && !s.stopped
      invariant s.giveUpAt == Some(GIVE_UP_AFTER) && s.attempt == n + 1
      invariant |s.starts| == n && |s.failures| == n + 1
      invariant s.at == Sleeping(if n < 15 then LeastElapsed(n + 1) else GIVE_UP_AFTER)
    {
      StruggleOnce(s, n);
      n := n + 1;
    }
    s.TimerFires(s.at.until);
  }

  // ----- after a stop

  /** What can still happen to a stopped supervisor that is neither started nor retried. */
  datatype Later =
    | Fails(now: int, error: string)
    | Connects(now: int)
    | Closes(now: int, error: string)
    | Stops(now: int)

  /** As much of a stopped supervisor as decides how it goes on. */
  datatype Halting = Halting(phase: Phase, at: Await, clock: int)

  predicate CanCome(h: Halting, e: Later) {
    && e.now >= h.clock
    && (e.Fails? || e.Connects? ==> h.at.Trying?)
    && (e.Closes? ==> h.at.Open?)
  }

  function AfterEvent(h: Halting, e: Later): Halting {
    match e
    case Fails(now, _) => Halting(Reconnecting, NotRunning, now)
    case Connects(now) => Halting(Connected, Open, now)
    case Closes(now, _) => Halting(Reconnecting, NotRunning, now)
    case Stops(now) => Halting(Closed, if h.at.Sleeping? then NotRunning else h.at, now)
  }

  predicate AllCanCome(h: Halting, es: seq<Later>)
    decreases |es|
  {
    es == [] || (CanCome(h, es[0]) && AllCanCome(AfterEvent(h, es[0]), es[1..]))
  }

  function AfterAll(h: Halting, es: seq<Later>): Halting
    decreases |es|
  {
    if es == [] then h else AfterAll(AfterEvent(h, es[0]), es[1..])
  }

  ghost predicate StaysClosed(h: Halting) {
    forall es | AllCanCome(h, es) :: AfterAll(h, es).phase == Closed
  }

  function HaltingOf(s: Supervisor): Halting
    reads s
  {
    Halting(s.phase, s.at, s.clock)
  }

  /** The supervisor goes on as `AfterEvent` says, whatever event comes. */
  method GoOn(s: Supervisor, e: Later)
    requires s.Valid() && s.stopped && CanCome(HaltingOf(s), e)
    modifies s
    ensures s.Valid() && s.stopped && HaltingOf(s) == AfterEvent(old(HaltingOf(s)), e)
  {
    match e {
      case Fails(now, error) => s.AttemptFails(now, error, 0.0);
      case Connects(now) => s.AttemptSucceeds(now);
      case Closes(now, error) => s.ConnectionCloses(now, error, 0.0);
      case Stops(now) => s.Stop(now);
    }
  }

  /** A stop and whatever follows it, short of a start or a retry. */
  method StopAndGoOn(s: Supervisor, now: int, es: seq<Later>)
    requires s.Valid() && now >= s.clock
    requires AllCanCome(AfterEvent(HaltingOf(s), Stops(now)), es)
    modifies s
    ensures s.Valid() && s.stopped
    ensures HaltingOf(s) == AfterAll(AfterEvent(old(HaltingOf(s)), Stops(now)), es)
  {
    s.Stop(now);
    var i := 0;
    while i < |es|
      invariant 0 <= i <= |es| && s.Valid() && s.stopped && AllCanCome(HaltingOf(s), es[i..])
      invariant AfterAll(HaltingOf(s), es[i..]) == AfterAll(AfterEvent(old(HaltingOf(s)), Stops(now)), es)
    {
      assert es[i..][0] == es[i] && es[i..][1..] == es[i + 1..];
      GoOn(s, es[i]);
      i := i + 1;
    }
  }

  lemma {:induction false} NothingRunsOn(h: Halting, es: seq<Later>)
    requires h.phase == Closed && h.at == NotRunning && AllCanCome(h, es)
    ensures AfterAll(h, es).phase == Closed
    decreases |es|
  {
    if es != [] {
      NothingRunsOn(AfterEvent(h, es[0]), es[1..]);
    }
  }

  /** A supervisor stays closed after a stop, whatever follows short of a start or a retry, if and only if its loop was
      asleep or not running when it was stopped. */
  lemma StaysClosedExactlyWhenIdle(before: Halting, now: int)
    requires CanCome(before, Stops(now))
    ensures StaysClosed(AfterEvent(before, Stops(now))) <==> before.at.NotRunning? || before.at.Sleeping?
  {
    var h := AfterEvent(before, Stops(now));
    if before.at.NotRunning? || before.at.Sleeping? {
      forall es | AllCanCome(h, es)
        ensures AfterAll(h, es).phase == Closed
      {
        NothingRunsOn(h, es);
      }
    } else {
      var es := [if before.at.Trying? then Fails(now, "") else Closes(now, "")];
      assert es[1..] == [];
      assert AllCanCome(AfterEvent(h, es[0]), es[1..]) && AllCanCome(h, es);
      assert AfterAll(AfterEvent(h, es[0]), es[1..]) == AfterEvent(h, es[0]) == AfterAll(h, es);
    }
  }

  /** Stopped during an attempt that then fails: the supervisor ends up reconnecting, and nothing runs. */
  method StoppedThenFailed() returns (s: Supervisor)
    ensures fresh(s) && s.Valid() && s.stopped && s.phase == Reconnecting && s.at == NotRunning
  {
    s := new Supervisor(0);
    s.Begin(0, 0.0);
    s.Stop(10);
    s.AttemptFails(20, "refused", 0.0);
  }

  /** Stopped during an attempt that then connects: the supervisor is connected, and the connection stays open. */
  method StoppedThenConnected() returns (s: Supervisor)
    ensures fresh(s) && s.Valid() && s.stopped && s.phase == Connected && s.at == Open
  {
    s := new Supervisor(0);
    s.Begin(0, 0.0);
    s.Stop(10);
    s.AttemptSucceeds(20);
  }
}
