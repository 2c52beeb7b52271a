/**
  The renewal chain from end to end: viewer timer, relay check, table statement, relay cache, viewer
  again. One shared clock, a time to live of 30 seconds, one connection of one device.
 */
module Renewal {
  import opened Base
  import opened LeaseTable
  import opened Registry
  import opened ViewerControl

  const TTL: int := 30 * SECOND

  /** A lease in force: the table, the relay's cached grant, what the viewer knows, and when the last grant
      was executed by the control plane, cached by the relay and received by the viewer. */
  datatype Link = Link(rows: Rows, entry: Entry, version: int, renewAt: int, executed: int, cached: int, received: int)

  /** One renewal: when the viewer's timer fired, and when the request was executed, cached and answered.
      `others` are statements other devices got in since the last round, `frames` the instants at which the relay
      decided on input frames of the holder in that time. */
  datatype Round =
    Round(others: seq<Statement>, frames: seq<int>, fired: int, executed: int, cached: int, received: int)

  /** Device `d` holds session `s` and everybody knows: table, cache and viewer carry the same version. */
  ghost predicate InForce(l: Link, s: SessionId, d: DeviceId) {
    && s in l.rows && l.rows[s].device == d
    && l.rows[s].version == l.version && l.rows[s].expiresAt == l.executed + TTL
    && l.entry.session == s && l.entry.token == d
    && l.entry.version == l.version && l.entry.expiresAt == WholeSeconds(l.executed + TTL)
    && l.renewAt == l.received + RenewDelay(l.entry.expiresAt, l.received)
    && l.executed <= l.cached <= l.received
  }

  /** Timers may be late but never early, and messages take their time. The holder's messages are handled one at a
      time, so its frames are decided on after the last grant was cached and before the renewal is executed. */
  predicate WellTimed(l: Link, r: Round) {
    && l.renewAt <= r.fired <= r.executed <= r.cached <= r.received
    && forall f | f in r.frames :: l.cached <= f <= r.executed
  }

  /** A frame was decided on after the expiry: the relay has dropped the cached grant. */
  predicate Late(expiresAt: int, frames: seq<int>) {
    exists f | f in frames :: f > expiresAt
  }

  /** Statements of other devices, none of them running ahead of the renewal's clock. */
  predicate FromOthers(r: Round, d: DeviceId) {
    forall k | 0 <= k < |r.others| ::
      !r.others[k].DeleteBySession? && r.others[k].device != d
      && (Clocked(r.others[k]) ==> r.others[k].now <= r.executed)
  }

  /** What the relay, the table and the viewer make of one renewal; `None` when it is refused. */
  function Renewed(l: Link, r: Round): Option<Link> {
    if l.entry.version != l.version || Late(l.entry.expiresAt, r.frames) then None // the relay's own check
    else
      var st := Renew(l.entry.session, l.entry.token, l.version, r.executed, r.executed + TTL);
      var out := Execute(ExecuteAll(l.rows, r.others), st);
      if out.returned.None? then None
      else
        var row := out.returned.value;
        var entry := l.entry.(version := row.version, expiresAt := WholeSeconds(row.expiresAt));
        Some(Link(out.rows, entry, row.version, r.received + RenewDelay(entry.expiresAt, r.received),
                  r.executed, r.cached, r.received))
  }

  /** While the lease runs, no statement of another device changes the row. */
  lemma {:induction false} OthersCannotTouch(rows: Rows, others: seq<Statement>, s: SessionId, d: DeviceId)
    requires s in rows && rows[s].device == d
    requires forall k | 0 <= k < |others| :: !others[k].DeleteBySession? && others[k].device != d
               && (Clocked(others[k]) ==> others[k].now < rows[s].expiresAt)
    ensures s in ExecuteAll(rows, others) && ExecuteAll(rows, others)[s] == rows[s]
    decreases |others|
  {
    if others != [] {
      OthersCannotTouch(Execute(rows, others[0]).rows, others[1..], s, d);
    }
  }

  /** A renewal that reaches the control plane in time, and finds its grant cached, succeeds, and the lease is in
      force again. */
  lemma RenewalInTimeSucceeds(l: Link, r: Round, s: SessionId, d: DeviceId)
    requires InForce(l, s, d) && WellTimed(l, r) && FromOthers(r, d)
    requires r.executed < l.executed + TTL && !Late(l.entry.expiresAt, r.frames)
    ensures Renewed(l, r).Some?
    ensures InForce(Renewed(l, r).value, s, d) && Renewed(l, r).value.version == l.version + 1
  {
    OthersCannotTouch(l.rows, r.others, s, d);
  }

  /** Other devices can take the row away, but not leave it with the device and change it. */
  lemma {:induction false} OthersNeverExtend(
    rows: Rows, others: seq<Statement>, s: SessionId, d: DeviceId, expiresAt: int)
    requires s in rows && rows[s].device == d ==> rows[s].expiresAt == expiresAt
    requires forall k | 0 <= k < |others| :: others[k].DeleteBySession? || others[k].device != d
    ensures var rows' := ExecuteAll(rows, others);
            s in rows' && rows'[s].device == d ==> rows'[s].expiresAt == expiresAt
    decreases |others|
  {
    if others != [] {
      OthersNeverExtend(Execute(rows, others[0]).rows, others[1..], s, d, expiresAt);
    }
  }

  /** Exactly when a renewal succeeds, whatever other devices try meanwhile: it is executed before the row expires, and
      no frame of the holder was decided on after the cached grant had expired, which can be almost a second earlier. */
  lemma RenewalSucceedsExactlyInTime(l: Link, r: Round, s: SessionId, d: DeviceId)
    requires InForce(l, s, d) && WellTimed(l, r) && FromOthers(r, d)
    ensures Renewed(l, r).Some? <==> r.executed < l.executed + TTL && !Late(l.entry.expiresAt, r.frames)
  {
    if r.executed >= l.executed + TTL {
      OthersNeverExtend(l.rows, r.others, s, d, l.executed + TTL);
    } else if !Late(l.entry.expiresAt, r.frames) {
      RenewalInTimeSucceeds(l, r, s, d);
    }
  }

  /** From `l` on, every round is well timed and meets only other devices, for as long as renewals succeed. */
  ghost predicate Orderly(l: Link, rounds: seq<Round>, d: DeviceId)
    decreases |rounds|
  {
    rounds == [] ||
    (&& WellTimed(l, rounds[0]) && FromOthers(rounds[0], d)
     && (Renewed(l, rounds[0]).Some? ==> Orderly(Renewed(l, rounds[0]).value, rounds[1..], d)))
  }

  /** Each round is executed strictly within the time to live of the grant before it, and meets that grant cached: no
      frame has been decided on after its expiry in whole seconds. */
  predicate InTime(executed: int, rounds: seq<Round>)
    decreases |rounds|
  {
    rounds == [] ||
    (&& rounds[0].executed < executed + TTL && !Late(WholeSeconds(executed + TTL), rounds[0].frames)
     && InTime(rounds[0].executed, rounds[1..]))
  }

  /** The links of the chain, as far as renewals succeed. */
  ghost function Chain(l: Link, rounds: seq<Round>): (chain: seq<Link>)
    ensures 1 <= |chain| <= |rounds| + 1
    decreases |rounds|
  {
    if rounds == [] || Renewed(l, rounds[0]).None? then [l]
    else [l] + Chain(Renewed(l, rounds[0]).value, rounds[1..])
  }

  /** Exactly when renewal does not lapse: every round of a chain succeeds if and only if each is executed strictly
      within the time to live of the grant before, and none meets its grant dropped by a late frame. */
  lemma {:induction false} ChainHoldsExactlyInTime(l: Link, rounds: seq<Round>, s: SessionId, d: DeviceId)
    requires InForce(l, s, d) && Orderly(l, rounds, d)
    ensures |Chain(l, rounds)| == |rounds| + 1 <==> InTime(l.executed, rounds)
    decreases |rounds|
  {
    if rounds != [] {
      RenewalSucceedsExactlyInTime(l, rounds[0], s, d);
      if Renewed(l, rounds[0]).Some? {
        RenewalInTimeSucceeds(l, rounds[0], s, d);
        ChainHoldsExactlyInTime(Renewed(l, rounds[0]).value, rounds[1..], s, d);
      }
    }
  }

  /** What one timer spans: the answer to the last grant, the timer's lateness, and the way of the next
      request up to its entry in the relay's cache. */
  function Legs(l: Link, r: Round): int {
    (l.received - l.executed) + (r.fired - l.renewAt) + (r.cached - r.fired)
  }

  const MAX_LEGS: int := 24 * SECOND

  /** From `l` on, every round is well timed, keeps its legs within 24 seconds and meets only other devices. */
  ghost predicate Prompt(l: Link, rounds: seq<Round>, d: DeviceId)
    decreases |rounds|
  {
    rounds == [] ||
    (&& WellTimed(l, rounds[0]) && FromOthers(rounds[0], d) && Legs(l, rounds[0]) <= MAX_LEGS
     && (Renewed(l, rounds[0]).Some? ==> Prompt(Renewed(l, rounds[0]).value, rounds[1..], d)))
  }

  lemma PromptRoundSucceeds(l: Link, r: Round, s: SessionId, d: DeviceId)
    requires InForce(l, s, d) && WellTimed(l, r) && FromOthers(r, d) && Legs(l, r) <= MAX_LEGS
    ensures Renewed(l, r).Some?
    ensures InForce(Renewed(l, r).value, s, d) && Renewed(l, r).value.version == l.version + 1
    ensures r.cached <= l.entry.expiresAt
  {
    RenewDelayIsTheFloor(l.executed, l.received, l.entry.expiresAt);
    RenewalInTimeSucceeds(l, r, s, d);
  }

  /** Renewal never lapses: over any number of prompt rounds every renewal succeeds, the version counts them,
      and each cached grant is still good when the next one takes its place. */
  lemma {:induction false} RenewalNeverLapses(l: Link, rounds: seq<Round>, s: SessionId, d: DeviceId)
    requires InForce(l, s, d) && Prompt(l, rounds, d)
    ensures var chain := Chain(l, rounds);
            && |chain| == |rounds| + 1
            && (forall k | 0 <= k <= |rounds| :: InForce(chain[k], s, d) && chain[k].version == l.version + k)
            && (forall k | 0 <= k < |rounds| ::
                  chain[k + 1].cached == rounds[k].cached <= chain[k].entry.expiresAt)
    decreases |rounds|
  {
    if rounds != [] {
      PromptRoundSucceeds(l, rounds[0], s, d);
      var next := Renewed(l, rounds[0]).value;
      RenewalNeverLapses(next, rounds[1..], s, d);
      var chain, tail := Chain(l, rounds), Chain(next, rounds[1..]);
      assert chain == [l] + tail;
      forall k | 0 <= k <= |rounds|
        ensures InForce(chain[k], s, d) && chain[k].version == l.version + k
      {
        if k > 0 {
          assert chain[k] == tail[k - 1];
        }
      }
      forall k | 0 <= k < |rounds|
        ensures chain[k + 1].cached == rounds[k].cached <= chain[k].entry.expiresAt
      {
        assert chain[k + 1] == tail[k];
        if k > 0 {
          assert rounds[k] == rounds[1..][k - 1];
        }
      }
    }
  }

  /** Punctual timers and answers within 12 seconds, measured from request to answer, are prompt enough. */
  lemma TwelveSecondRoundTripsArePrompt(l: Link, r: Round, asked: int)
    requires WellTimed(l, r) && r.fired == l.renewAt
    requires asked <= l.executed && l.received - asked <= 12 * SECOND
    requires r.received - r.fired <= 12 * SECOND
    ensures Legs(l, r) <= MAX_LEGS
  {
  }

  /** Round trips under 24 seconds each are not enough: a slow answer followed by a slow request loses the
      lease although each exchange takes 16 seconds and the timer is punctual. */
  lemma TwentyFourSecondRoundTripsCanLapse(s: SessionId, d: DeviceId) returns (l: Link, r1: Round, r2: Round)
    ensures InForce(l, s, d) && WellTimed(l, r1) && Renewed(l, r1).Some?
    ensures r1.fired == l.renewAt && r1.received - r1.fired < 24 * SECOND
    ensures var l2 := Renewed(l, r1).value;
            WellTimed(l2, r2) && r2.fired == l2.renewAt && r2.received - r2.fired < 24 * SECOND && Renewed(l2, r2).None?
  {
    l := Link(map[s := Lease(d, 1, 0, TTL)], Entry(1, s, 1, TTL, d), 1, 5 * SECOND, 0, 0, 0);
    r1 := Round([], [], 5 * SECOND, 5 * SECOND, 5 * SECOND, 21 * SECOND);
    r2 := Round([], [], 26 * SECOND, 42 * SECOND, 42 * SECOND, 42 * SECOND);
    RenewDelayIsTheFloor(0, 0, TTL);
    RenewDelayIsTheFloor(5 * SECOND, 21 * SECOND, 35 * SECOND);
  }

  /** A renewal executed in time that fails all the same: the grant executed at 0.9 s is cached until 30 s, its row
      expires at 30.9 s, a frame at 30.2 s makes the relay drop the cached grant, and the renewal comes at 30.6 s. */
  lemma TypingLateLosesTheLease(s: SessionId, d: DeviceId) returns (l: Link, r: Round)
    ensures InForce(l, s, d) && WellTimed(l, r) && r.fired == l.renewAt && FromOthers(r, d)
    ensures r.executed < l.rows[s].expiresAt && Renewed(l, r).None?
    ensures Renewed(l, r.(frames := [])).Some?
  {
    var granted := 900_000;
    l := Link(map[s := Lease(d, 1, granted, granted + TTL)], Entry(1, s, 1, 30 * SECOND, d), 1, 30_400_000,
              granted, granted, 25_400_000);
    r := Round([], [30_200_000], 30_400_000, 30_600_000, 30_600_000, 30_700_000);
    RenewDelayIsTheFloor(granted, l.received, l.entry.expiresAt);
    assert 30_200_000 in r.frames;
  }
}
