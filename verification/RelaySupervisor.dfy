/**
  The host daemon's reconnect supervisor: an unbounded loop that refreshes credentials, connects, waits for
  the connection to end, and backs off. Whether an error counts as an authentication error is an input.
 */
module RelaySupervisor {
  import opened Base

  datatype Phase = Connecting | Connected | Reconnecting | Closed

  // ----- back-off

  /** Nanoseconds. */
  const SCHEDULE: seq<int> := [1_000_000_000, 2_000_000_000, 5_000_000_000, 10_000_000_000, 30_000_000_000]

  function Nominal(attempt: nat): int {
    if attempt < |SCHEDULE| then SCHEDULE[attempt] else SCHEDULE[|SCHEDULE| - 1]
  }

  /** The delay, jittered and cut to whole nanoseconds. A negative index would not be a schedule entry. */
  function ComputeBackoff(attempt: int, rng: real): (delay: int)
    requires 0 <= attempt && 0.0 <= rng <= 1.0
    ensures 4 * Nominal(attempt) <= 5 * delay <= 6 * Nominal(attempt)
    ensures var seconds := if attempt == 0 then 1 else if attempt == 1 then 2 else if attempt == 2 then 5
                           else if attempt == 3 then 10 else 30;
            var exact := 1_000_000_000.0 * seconds as real * (0.8 + 0.4 * rng);
            exact - 1.0 < delay as real <= exact
  {
    var base := Nominal(attempt);
    assert base in SCHEDULE;
    assert 0.8 * base as real <= base as real * (0.8 + 0.4 * rng) <= 1.2 * base as real;
    (base as real * (0.8 + 0.4 * rng)).Floor
  }

  // ----- what happens to the loop

  datatype ErrorKind = Auth | Other

  /** One turn of the loop. A failing refresh or connect may come with the context cancelled; a connection ends
      when it is lost or the context is cancelled; a back-off sleep may be cut short by cancellation. */
  datatype Turn =
    | RefreshFails(kind: ErrorKind, cancelled: bool, sleepCut: bool)
    | ConnectFails(kind: ErrorKind, cancelled: bool, sleepCut: bool)
    | Connects(cancelled: bool, sleepCut: bool)

  datatype Event = AuthFailure | OtherFailure | Up | Lost

  /** What one turn leaves in the record. */
  function EventsOf(t: Turn): seq<Event> {
    match t
    case Connects(cancelled, _) => if cancelled then [Up] else [Up, Lost]
    case RefreshFails(kind, cancelled, _) =>
      if cancelled then [] else if kind.Auth? then [AuthFailure] else [OtherFailure]
    case ConnectFails(kind, cancelled, _) =>
      if cancelled then [] else if kind.Auth? then [AuthFailure] else [OtherFailure]
  }

  function Record(turns: seq<Turn>): seq<Event> {
    if turns == [] then [] else Record(turns[..|turns| - 1]) + EventsOf(turns[|turns| - 1])
  }

  /** Failed attempts and lost connections. */
  function Setbacks(log: seq<Event>): nat {
    if log == [] then 0 else Setbacks(log[..|log| - 1]) + if log[|log| - 1].Up? then 0 else 1
  }

  /** The authentication failures at the end of the record, with nothing else in between. */
  function AuthRun(log: seq<Event>): nat {
    if log == [] || !log[|log| - 1].AuthFailure? then 0 else 1 + AuthRun(log[..|log| - 1])
  }

  const PERSISTENT: nat := 3

  /** At no point of the record were there three authentication failures in a row. */
  predicate Undecided(log: seq<Event>) {
    AuthRun(log) < PERSISTENT && (log != [] ==> Undecided(log[..|log| - 1]))
  }

  predicate Ends(t: Turn) {
    t.cancelled || t.sleepCut
  }

  lemma RecordGrows(turns: seq<Turn>, i: nat)
    requires i < |turns|
    ensures Record(turns[..i + 1]) == Record(turns[..i]) + EventsOf(turns[i])
  {
    assert turns[..i + 1][..i] == turns[..i];
  }

  lemma SetbacksOf(log: seq<Event>, e: Event)
    ensures Setbacks(log + [e]) == Setbacks(log) + if e.Up? then 0 else 1
    ensures AuthRun(log + [e]) == if e.AuthFailure? then AuthRun(log) + 1 else 0
    ensures Undecided(log + [e]) <==> Undecided(log) && AuthRun(log + [e]) < PERSISTENT
  {
    assert (log + [e])[..|log|] == log;
  }

  /** A connection counts as one setback once it is lost, and breaks any run of failures. */
  lemma ConnectionInLog(log: seq<Event>)
    ensures Setbacks(log + [Up]) == Setbacks(log) && AuthRun(log + [Up]) == 0
    ensures Setbacks(log + [Up, Lost]) == Setbacks(log) + 1 && AuthRun(log + [Up, Lost]) == 0
    ensures Undecided(log) ==> Undecided(log + [Up]) && Undecided(log + [Up, Lost])
  {
    SetbacksOf(log, Up);
    SetbacksOf(log + [Up], Lost);
    assert log + [Up] + [Lost] == log + [Up, Lost];
  }

  class Supervisor {
    var phase: Phase
    var attempt: nat
    var authFailures: nat
    var client: Option<nat>          // the published client, by the number of the connection
    var connections: nat
    var shutdownRequests: nat
    ghost var log: seq<Event>

    /** What holds at the head of the loop. */
    ghost predicate AtHead()
      reads this
    {
      && attempt == Setbacks(log)
      && authFailures == AuthRun(log) && Undecided(log)
      && client.None?
    }

    constructor ()
      ensures AtHead() && log == [] && phase == Connecting && shutdownRequests == 0
    {
      phase, attempt, authFailures, client, connections, shutdownRequests := Connecting, 0, 0, None, 0, 0;
      log := [];
    }

    method RecordError(rng: real)
      requires 0.0 <= rng <= 1.0
      modifies this`phase, this`attempt, this`authFailures, this`log
      ensures phase == Reconnecting && attempt == old(attempt) + 1 && authFailures == 0
      ensures log == old(log) + [OtherFailure]
    {
      phase := Reconnecting;
      attempt := attempt + 1;
      authFailures := 0;
      var nextRetry := ComputeBackoff(attempt - 1, rng);
      log := log + [OtherFailure];
    }

    /** Leaves the count of authentication failures to `BumpAuthFailures`. */
    method RecordAuthError(rng: real)
      requires 0.0 <= rng <= 1.0
      modifies this`phase, this`attempt
      ensures phase == Reconnecting && attempt == old(attempt) + 1
    {
      phase := Reconnecting;
      attempt := attempt + 1;
      var nextRetry := ComputeBackoff(attempt - 1, rng);
    }

    method BumpAuthFailures() returns (reached: bool)
      modifies this`authFailures, this`log
      ensures authFailures == old(authFailures) + 1 && reached == (authFailures >= PERSISTENT)
      ensures log == old(log) + [AuthFailure]
    {
      authFailures := authFailures + 1;
      log := log + [AuthFailure];
      reached := authFailures >= PERSISTENT;
    }

    /** A failed refresh or connect attempt; the supervisor is closed when the third authentication failure
        in a row has just happened. */
    method HandleFailure(kind: ErrorKind, rng: real) returns (closed: bool)
      requires AtHead() && 0.0 <= rng <= 1.0
      modifies this
      ensures log == old(log) + [if kind.Auth? then AuthFailure else OtherFailure]
      ensures client.None? && connections == old(connections)
      ensures closed <==> AuthRun(log) == 3
      ensures closed ==> phase == Closed && shutdownRequests == old(shutdownRequests) + 1
      ensures Undecided(log[..|log| - 1])
      ensures !closed ==> AtHead() && phase == Reconnecting && attempt > 0 && shutdownRequests == old(shutdownRequests)
    {
      SetbacksOf(log, if kind.Auth? then AuthFailure else OtherFailure);
      assert (log + [if kind.Auth? then AuthFailure else OtherFailure])[..|log|] == log;
      if kind.Auth? {
        var reached := BumpAuthFailures();
        if reached {
          phase := Closed;
          shutdownRequests := shutdownRequests + 1;
          return true;
        }
        RecordAuthError(rng);
      } else {
        RecordError(rng);
      }
      return false;
    }

    /** The new client is published; the count of authentication failures starts over, the attempts do not. */
    method Publish()
      modifies this`phase, this`authFailures, this`client, this`connections, this`log
      ensures client == Some(old(connections)) && connections == old(connections) + 1
      ensures phase == Connected && authFailures == 0 && log == old(log) + [Up]
    {
      client := Some(connections);
      connections := connections + 1;
      phase, authFailures := Connected, 0;
      log := log + [Up];
    }

    /** A published connection is lost, or the context ends: the client is withdrawn either way. */
    method Withdraw(cancelled: bool, rng: real)
      requires client.Some? && 0.0 <= rng <= 1.0
      modifies this`phase, this`attempt, this`client, this`log
      ensures client.None?
      ensures if cancelled then phase == Closed && attempt == old(attempt) && log == old(log)
              else phase == Reconnecting && attempt == old(attempt) + 1 && log == old(log) + [Lost]
    {
      client := None;
      if cancelled {
        phase := Closed;
        return;
      }
      phase := Reconnecting;
      attempt := attempt + 1;
      log := log + [Lost];
      var nextRetry := ComputeBackoff(attempt - 1, rng);
    }

    /** A connection from its publication to its loss or to the end of the context. */
    method HandleConnection(cancelled: bool, rng: real)
      requires AtHead() && 0.0 <= rng <= 1.0
      modifies this
      ensures log == old(log) + (if cancelled then [Up] else [Up, Lost])
      ensures connections == old(connections) + 1 && shutdownRequests == old(shutdownRequests)
      ensures AtHead() && AuthRun(log) == 0
      ensures if cancelled then phase == Closed else phase == Reconnecting && attempt > 0
    {
      ConnectionInLog(log);
      Publish();
      Withdraw(cancelled, rng);
      assert old(log) + [Up] + [Lost] == old(log) + [Up, Lost];
    }

    method BackoffSleep(rng: real) returns (delay: int)
      requires attempt > 0 && 0.0 <= rng <= 1.0
      ensures delay == ComputeBackoff(attempt - 1, rng)
      ensures 4 * Nominal(attempt - 1) <= 5 * delay <= 6 * Nominal(attempt - 1)
    {
      delay := ComputeBackoff(attempt - 1, rng);
    }

    /** One turn of the loop; it ends the loop on cancellation or on the third authentication failure in a row. */
    method TakeTurn(turn: Turn, rng: real) returns (closed: bool)
      requires AtHead() && 0.0 <= rng <= 1.0
      modifies this
      ensures log == old(log) + EventsOf(turn) && client.None?
      ensures closed <==> Ends(turn) || AuthRun(log) == 3
      ensures connections == old(connections) + if turn.Connects? then 1 else 0
      ensures closed ==> phase == Closed
      ensures !closed ==> AtHead() && phase == Reconnecting
      ensures Undecided(log) || (log != [] && AuthRun(log) == 3 && Undecided(log[..|log| - 1]))
      ensures shutdownRequests == old(shutdownRequests) + if AuthRun(log) == 3 then 1 else 0
    {
      phase := Connecting;
      if turn.Connects? {
        HandleConnection(turn.cancelled, rng);
        if turn.cancelled {
          return true;
        }
      } else {
        if turn.cancelled {
          phase := Closed;
          return true;
        }
        closed := HandleFailure(turn.kind, rng);
        if closed {
          return true;
        }
      }
      var delay := BackoffSleep(rng);
      if turn.sleepCut {
        phase := Closed;
      }
      return turn.sleepCut;
    }

    /** The main loop over what happens; when nothing more happens the context is cancelled. Run ends closed,
        with no client published. A shutdown is requested once if the third authentication failure in a row
        ended it, and not at all otherwise; `n` turns were taken. */
    method Run(turns: seq<Turn>, rng: nat -> real) returns (n: nat)
      requires AtHead() && log == []
      requires forall k :: 0.0 <= rng(k) <= 1.0
      modifies this
      ensures phase == Closed && client.None?
      ensures n <= |turns| && log == Record(turns[..n])
      ensures shutdownRequests == old(shutdownRequests) + if AuthRun(log) == 3 then 1 else 0
      ensures forall k | 0 <= k < n - 1 :: !Ends(turns[k])
      ensures Undecided(log) || (log != [] && AuthRun(log) == 3 && Undecided(log[..|log| - 1]))
      ensures AuthRun(log) == 3 || n == |turns| || (n > 0 && Ends(turns[n - 1]))
    {
      n := 0;
      while n < |turns|
        invariant n <= |turns| && AtHead() && log == Record(turns[..n])
        invariant shutdownRequests == old(shutdownRequests)
        invariant forall k | 0 <= k < n :: !Ends(turns[k])
      {
        assert Record(turns[..n + 1]) == log + EventsOf(turns[n]) by {
          RecordGrows(turns, n);
        }
        var closed := TakeTurn(turns[n], rng(n));
        n := n + 1;
        if closed {
          return;
        }
      }
      phase := Closed;
    }
  }

  function AuthFailuresInARow(k: nat): seq<Event> {
    if k == 0 then [] else AuthFailuresInARow(k - 1) + [AuthFailure]
  }

  /** Authentication failures one after the other all count, whatever came before them. */
  lemma {:induction false} FailuresInARowAllCount(log: seq<Event>, k: nat)
    ensures AuthRun(log + AuthFailuresInARow(k)) == AuthRun(log) + k
  {
    if k == 0 {
      assert log + AuthFailuresInARow(0) == log;
    } else {
      FailuresInARowAllCount(log, k - 1);
      SetbacksOf(log + AuthFailuresInARow(k - 1), AuthFailure);
      assert log + AuthFailuresInARow(k) == log + AuthFailuresInARow(k - 1) + [AuthFailure];
    }
  }

  lemma ThreeInARow(turns: seq<Turn>)
    requires |turns| == 3 && forall k | 0 <= k < 3 :: !turns[k].Connects? && !turns[k].cancelled
    requires turns[0].kind.Auth? && turns[1].kind.Auth?
    ensures AuthRun(Record(turns[..0])) == 0 && AuthRun(Record(turns[..1])) == 1 && AuthRun(Record(turns[..2])) == 2
    ensures AuthRun(Record(turns[..3])) == if turns[2].kind.Auth? then 3 else 0
  {
    assert turns[..0] == [];
    forall k | 0 <= k < 3
      ensures AuthRun(Record(turns[..k + 1])) == if turns[k].kind.Auth? then AuthRun(Record(turns[..k])) + 1 else 0
    {
      RecordGrows(turns, k);
      SetbacksOf(Record(turns[..k]), if turns[k].kind.Auth? then AuthFailure else OtherFailure);
    }
  }

  /** Two refusals for authentication and a third failure: a shutdown is asked for if that is one as well. */
  method ThreeRefusals(s: Supervisor, turns: seq<Turn>, rng: nat -> real) returns (n: nat)
    requires s.AtHead() && s.log == [] && forall k :: 0.0 <= rng(k) <= 1.0
    requires |turns| == 3 && forall k | 0 <= k < 3 :: !turns[k].Connects? && !turns[k].cancelled && !turns[k].sleepCut
    requires turns[0].kind.Auth? && turns[1].kind.Auth?
    modifies s
    ensures s.phase == Closed && s.client.None? && n == 3
    ensures s.shutdownRequests == old(s.shutdownRequests) + if turns[2].kind.Auth? then 1 else 0
  {
    ThreeInARow(turns);
    n := s.Run(turns, rng);
  }

  /** The first turn is followed by a second one if and only if it saw no cancellation, before or during its sleep. */
  method CutShort(s: Supervisor, turns: seq<Turn>, rng: nat -> real) returns (n: nat)
    requires s.AtHead() && s.log == [] && |turns| == 2 && forall k :: 0.0 <= rng(k) <= 1.0
    modifies s
    ensures s.phase == Closed && s.client.None?
    ensures n == if turns[0].cancelled || turns[0].sleepCut then 1 else 2
    ensures s.shutdownRequests == old(s.shutdownRequests)
  {
    assert turns[..0] == [];
    RecordGrows(turns, 0);
    RecordGrows(turns, 1);
    n := s.Run(turns, rng);
  }
}
