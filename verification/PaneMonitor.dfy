/**
  The host-resize monitor: a polling loop with a double-tick debounce, and the table of running monitors.
 */
module PaneMonitor {
  import opened Base

  datatype Size = Size(cols: nat, rows: nat)

  /** One reading of the pane size; `None` when the query failed. */
  type Reading = Option<Size>

  /** The size a monitor starts from: a failed first query counts as 0 by 0. */
  function Initial(first: Reading): Size {
    if first.Some? then first.value else Size(0, 0)
  }

  /** The readings that did not fail. */
  function Good(readings: seq<Reading>): (good: seq<Size>)
    ensures |good| <= |readings|
  {
    if readings == [] then []
    else
      var before := Good(readings[..|readings| - 1]);
      var last := readings[|readings| - 1];
      if last.Some? then before + [last.value] else before
  }

  /** Failed readings leave no trace, and the others stay in order. */
  lemma {:induction false} GoodOfPieces(a: seq<Reading>, b: seq<Reading>)
    ensures Good(a + b) == Good(a) + Good(b)
    ensures Good([None]) == [] && forall size :: Good([Some(size)]) == [size]
    decreases |b|
  {
    forall r: Reading
      ensures Good([r]) == if r.Some? then [r.value] else []
    {
      assert [r][..0] == [];
    }
    if b == [] {
      assert a + b == a;
    } else {
      assert (a + b)[..|a + b| - 1] == a + b[..|b| - 1];
      GoodOfPieces(a, b[..|b| - 1]);
    }
  }

  lemma FailedStartIsZero()
    ensures Initial(None) == Size(0, 0) && forall size :: Initial(Some(size)) == size
  {
  }

  /** The simple specification: the value most recently seen twice in a row, or the initial one. */
  function Settled(initial: Size, good: seq<Size>): Size {
    var n := |good|;
    if n < 2 then initial
    else if good[n - 1] == good[n - 2] then good[n - 1]
    else Settled(initial, good[..n - 1])
  }

  /** The successive changes of the settled value. */
  function Changes(initial: Size, good: seq<Size>): seq<Size> {
    if good == [] then []
    else
      var before := good[..|good| - 1];
      Changes(initial, before)
      + if Settled(initial, good) != Settled(initial, before) then [Settled(initial, good)] else []
  }

  /** What one more reading does to the settled value and to its changes. */
  lemma OneMoreSize(initial: Size, good: seq<Size>, size: Size)
    ensures var settled := Settled(initial, good);
            var twice := good != [] && good[|good| - 1] == size;
            && Settled(initial, good + [size]) == (if twice then size else settled)
            && Changes(initial, good + [size])
               == if twice && size != settled then Changes(initial, good) + [size] else Changes(initial, good)
  {
    assert (good + [size])[..|good|] == good;
  }

  lemma OneMoreReading(readings: seq<Reading>, i: nat)
    requires i < |readings|
    ensures Good(readings[..i + 1])
            == if readings[i].Some? then Good(readings[..i]) + [readings[i].value] else Good(readings[..i])
  {
    assert readings[..i + 1][..i] == readings[..i];
  }

  /** The loop's variables after the readings `good`: the size armed for the next tick is the last one read, unless
      that was the settled one. */
  ghost predicate Tracks(initial: Size, good: seq<Size>, last: Size, pending: Option<Size>, attempts: seq<Size>) {
    && last == Settled(initial, good) && attempts == Changes(initial, good)
    && pending == if good == [] || good[|good| - 1] == last then None else Some(good[|good| - 1])
  }

  /** One tick: back at the settled size, settling on the armed one, or arming a new one. */
  lemma TickTracks(initial: Size, good: seq<Size>, last: Size, pending: Option<Size>, attempts: seq<Size>, size: Size)
    requires Tracks(initial, good, last, pending, attempts)
    ensures size == last ==> Tracks(initial, good + [size], last, None, attempts)
    ensures size != last && pending == Some(size) ==> Tracks(initial, good + [size], size, None, attempts + [size])
    ensures size != last && pending != Some(size) ==> Tracks(initial, good + [size], last, Some(size), attempts)
  {
    OneMoreSize(initial, good, size);
  }

  /** The debounce: what one good reading does to the loop's variables, and whether a re-push is due. */
  method Debounce(last: Size, pending: Option<Size>, size: Size, ghost initial: Size, ghost good: seq<Size>,
                  ghost attempts: seq<Size>)
    returns (last': Size, pending': Option<Size>, due: bool)
    requires Tracks(initial, good, last, pending, attempts)
    ensures Tracks(initial, good + [size], last', pending', if due then attempts + [size] else attempts)
  {
    TickTracks(initial, good, last, pending, attempts, size);
    if size == last {
      return last, None, false;
    }
    if pending.Some? && size == pending.value {
      return size, None, true;
    }
    return last, Some(size), false;
  }

  /** The monitor loop over its readings. `attempts` are the sizes for which a re-push was attempted, `pushed`
      those that got past the snapshot; a failing snapshot or push changes nothing else. */
  method Monitor(first: Reading, readings: seq<Reading>, snapshotFails: nat -> bool)
    returns (last: Size, attempts: seq<Size>, pushed: seq<Size>)
    ensures last == Settled(Initial(first), Good(readings))
    ensures attempts == Changes(Initial(first), Good(readings))
    ensures pushed == Sieve(attempts, snapshotFails)
  {
    last := Initial(first);
    var pending: Option<Size>, due := None, false;
    attempts, pushed := [], [];
    for i := 0 to |readings|
      invariant Tracks(Initial(first), Good(readings[..i]), last, pending, attempts)
      invariant pushed == Sieve(attempts, snapshotFails)
    {
      OneMoreReading(readings, i);
      if readings[i].Some? {
        var size := readings[i].value;
        last, pending, due := Debounce(last, pending, size, Initial(first), Good(readings[..i]), attempts);
        if due {
          SieveOneMore(attempts, size, snapshotFails);
          if !snapshotFails(|attempts|) {
            pushed := pushed + [size];
          }
          attempts := attempts + [size];
        }
      }
    }
    assert readings[..|readings|] == readings;
  }

  /** The attempts that were not lost to a failing snapshot. */
  function Sieve(attempts: seq<Size>, fails: nat -> bool): seq<Size> {
    if attempts == [] then []
    else
      var n := |attempts| - 1;
      Sieve(attempts[..n], fails) + if fails(n) then [] else [attempts[n]]
  }

  lemma SieveOneMore(attempts: seq<Size>, size: Size, fails: nat -> bool)
    ensures Sieve(attempts + [size], fails) == Sieve(attempts, fails) + if fails(|attempts|) then [] else [size]
  {
    assert (attempts + [size])[..|attempts|] == attempts;
  }

  /** How many of the first attempts are pushed. */
  function Kept(n: nat, fails: nat -> bool): nat {
    if n == 0 then 0 else Kept(n - 1, fails) + if fails(n - 1) then 0 else 1
  }

  lemma {:induction false} SieveCounts(attempts: seq<Size>, fails: nat -> bool)
    ensures |Sieve(attempts, fails)| == Kept(|attempts|, fails)
  {
    if attempts != [] {
      SieveCounts(attempts[..|attempts| - 1], fails);
    }
  }

  lemma {:induction false} SieveGrows(attempts: seq<Size>, fails: nat -> bool, i: nat)
    requires i <= |attempts|
    ensures Sieve(attempts[..i], fails) <= Sieve(attempts, fails)
    decreases |attempts|
  {
    if i < |attempts| {
      var before := attempts[..|attempts| - 1];
      SieveGrows(before, fails, i);
      assert before[..i] == attempts[..i];
    } else {
      assert attempts[..i] == attempts;
    }
  }

  lemma SieveOfPrefix(attempts: seq<Size>, fails: nat -> bool, i: nat)
    requires i < |attempts|
    ensures Sieve(attempts[..i + 1], fails) == Sieve(attempts[..i], fails) + if fails(i) then [] else [attempts[i]]
  {
    assert attempts[..i + 1][..i] == attempts[..i];
  }

  /** Each attempt is pushed or lost for itself, and those that are pushed stay in order: attempt `i` is the push that
      comes after the pushes before it, unless its own snapshot fails. */
  lemma PushedInTurn(attempts: seq<Size>, fails: nat -> bool, i: nat)
    requires i < |attempts|
    ensures |Sieve(attempts, fails)| == Kept(|attempts|, fails)
    ensures !fails(i) ==>
              Kept(i, fails) < |Sieve(attempts, fails)| && Sieve(attempts, fails)[Kept(i, fails)] == attempts[i]
    ensures fails(i) ==> Sieve(attempts[..i + 1], fails) == Sieve(attempts[..i], fails)
  {
    SieveCounts(attempts, fails);
    SieveCounts(attempts[..i], fails);
    SieveGrows(attempts, fails, i + 1);
    SieveOfPrefix(attempts, fails, i);
  }

  /** The last change is the settled value, which therefore never changes to itself. */
  lemma {:induction false} ChangesEndSettled(initial: Size, good: seq<Size>)
    ensures Settled(initial, good) == (var c := Changes(initial, good); if c == [] then initial else c[|c| - 1])
  {
    if good != [] {
      ChangesEndSettled(initial, good[..|good| - 1]);
    }
  }

  /** No re-push attempt repeats the size of the one before it, and the first differs from the initial size. */
  lemma {:induction false} NoTwoPushesAlike(initial: Size, good: seq<Size>)
    ensures var c := Changes(initial, good);
            && (c != [] ==> c[0] != initial)
            && (forall i | 0 < i < |c| :: c[i] != c[i - 1])
  {
    if good != [] {
      var before := good[..|good| - 1];
      NoTwoPushesAlike(initial, before);
      ChangesEndSettled(initial, before);
    }
  }

  /** As long as no snapshot fails, every attempt is pushed, and therefore no push repeats the one before it. */
  lemma {:induction false} NoFailureNoRepetition(initial: Size, good: seq<Size>, fails: nat -> bool)
    requires forall k: nat | k < |Changes(initial, good)| :: !fails(k)
    ensures var pushed := Sieve(Changes(initial, good), fails);
            pushed == Changes(initial, good) && forall i | 0 < i < |pushed| :: pushed[i] != pushed[i - 1]
  {
    SieveKeepsAll(Changes(initial, good), fails);
    NoTwoPushesAlike(initial, good);
  }

  lemma {:induction false} SieveKeepsAll(attempts: seq<Size>, fails: nat -> bool)
    requires forall k: nat | k < |attempts| :: !fails(k)
    ensures Sieve(attempts, fails) == attempts
  {
    if attempts != [] {
      SieveKeepsAll(attempts[..|attempts| - 1], fails);
    }
  }

  /** A new size read twice in a row is a change. */
  lemma ReadTwice(initial: Size, good: seq<Size>, size: Size)
    requires Settled(initial, good) != size && (good != [] ==> good[|good| - 1] != size)
    ensures Settled(initial, good + [size, size]) == size
    ensures Changes(initial, good + [size, size]) == Changes(initial, good) + [size]
  {
    OneMoreSize(initial, good, size);
    OneMoreSize(initial, good + [size], size);
    assert good + [size] + [size] == good + [size, size];
  }

  /** When the snapshot of the second of three attempts fails, the same size can be pushed twice in a row. */
  lemma LostSnapshotRepeatsAPush(a: Size, b: Size, c: Size, fails: nat -> bool)
    requires a != b && b != c && !fails(0) && fails(1) && !fails(2)
    ensures Sieve(Changes(a, [] + [b, b] + [c, c] + [b, b]), fails) == [b, b]
  {
    ReadTwice(a, [], b);
    ReadTwice(a, [] + [b, b], c);
    ReadTwice(a, [] + [b, b] + [c, c], b);
    SieveOneMore([], b, fails);
    SieveOneMore([] + [b], c, fails);
    SieveOneMore([] + [b] + [c], b, fails);
  }

  /** The settled value is the one of the latest two equal readings in a row; before there are any, the initial one. */
  lemma {:induction false} SettledIsTheLatestPair(initial: Size, good: seq<Size>, i: nat)
    requires i < |good| && forall k | i < k < |good| :: good[k - 1] != good[k]
    ensures 0 < i && good[i - 1] == good[i] ==> Settled(initial, good) == good[i]
    ensures i == 0 ==> Settled(initial, good) == initial
    decreases |good|
  {
    var n := |good|;
    if i < n - 1 {
      assert good[n - 2] != good[n - 1];
      SettledIsTheLatestPair(initial, good[..n - 1], i);
    }
  }

  /** One more reading adds at most one change, and takes none away. */
  lemma ChangesGrowByOneAtMost(initial: Size, good: seq<Size>, size: Size)
    ensures Changes(initial, []) == []
    ensures Changes(initial, good) <= Changes(initial, good + [size])
    ensures |Changes(initial, good + [size])| <= |Changes(initial, good)| + 1
  {
    OneMoreSize(initial, good, size);
  }

  /** The settled value is the initial one or has been read twice in a row. */
  lemma {:induction false} SettledWasSeenTwice(initial: Size, good: seq<Size>)
    ensures Settled(initial, good) == initial
            || exists i :: 0 < i < |good| && good[i - 1] == good[i] == Settled(initial, good)
  {
    var n := |good|;
    if n >= 2 && good[n - 1] != good[n - 2] {
      SettledWasSeenTwice(initial, good[..n - 1]);
      if Settled(initial, good) != initial {
        var i :| 0 < i < |good[..n - 1]| && good[..n - 1][i - 1] == good[..n - 1][i] == Settled(initial, good);
        assert good[i - 1] == good[i] == Settled(initial, good);
      }
    }
  }

  // ----- the table of monitors

  type Token = nat

  /** `cancelled` are the tokens whose monitor was told to stop, `exited` those whose goroutine has ended. */
  class MonitorTable {
    var monitors: map<string, Token>
    var cancelled: set<Token>
    var exited: set<Token>
    ghost var owner: map<Token, string>  // every token ever registered, with its session

    /** A monitor that is neither cancelled nor gone is the one in the table: at most one per session. */
    ghost predicate Valid()
      reads this
    {
      && (forall t | t in owner && t !in cancelled && t !in exited :: owner[t] in monitors && monitors[owner[t]] == t)
      && (forall s | s in monitors :: monitors[s] in owner && owner[monitors[s]] == s)
    }

    constructor ()
      ensures Valid() && monitors == map[] && owner == map[] && cancelled == {} && exited == {}
    {
      monitors, cancelled, exited, owner := map[], {}, {}, map[];
    }

    method Register(session: string, token: Token)
      requires Valid() && token !in owner
      modifies this
      ensures Valid() && monitors == old(monitors)[session := token] && owner == old(owner)[token := session]
      ensures cancelled == old(cancelled) + (if session in old(monitors) then {old(monitors)[session]} else {})
      ensures exited == old(exited)
    {
      var prev := if session in monitors then Some(monitors[session]) else None;
      monitors := monitors[session := token];
      owner := owner[token := session];
      if prev.Some? {
        cancelled := cancelled + {prev.value};
      }
    }

    /** A goroutine that exits late does not take a newer monitor out of the table. */
    method Unregister(session: string, token: Token)
      requires Valid() && token in owner && owner[token] == session
      modifies this
      ensures Valid() && exited == old(exited) + {token} && cancelled == old(cancelled) && owner == old(owner)
      ensures monitors == if session in old(monitors) && old(monitors)[session] == token
                          then old(monitors) - {session} else old(monitors)
    {
      if session in monitors && monitors[session] == token {
        monitors := monitors - {session};
      }
      exited := exited + {token};
    }

    /** After a stop no monitor of the session is left running. */
    method StopMonitor(session: string)
      requires Valid()
      modifies this
      ensures Valid() && monitors == old(monitors) - {session} && owner == old(owner) && exited == old(exited)
      ensures cancelled == old(cancelled) + (if session in old(monitors) then {old(monitors)[session]} else {})
      ensures forall t | t in owner && owner[t] == session :: t in cancelled || t in exited
    {
      var token := if session in monitors then Some(monitors[session]) else None;
      monitors := monitors - {session};
      if token.Some? {
        cancelled := cancelled + {token.value};
      }
    }
  }
}
