/**
  The `control_leases` table: at most one row per session. Every statement is one atomic
  conditional update. `Execute` says what each statement does to the rows; the class does it
  in place; the lemmas speak about runs of arbitrary statements.
 */
module LeaseTable {
  import opened Base

  type SessionId = string
  type DeviceId = string

  datatype Lease = Lease(device: DeviceId, version: int, grantedAt: int, expiresAt: int)

  type Rows = map<SessionId, Lease>

  datatype Statement =
    | Upsert(session: SessionId, device: DeviceId, now: int, expiresAt: int)
    | Renew(session: SessionId, device: DeviceId, version: int, now: int, expiresAt: int)
    | Release(session: SessionId, device: DeviceId, version: int)
    | DeleteBySession(session: SessionId)

  /** The rows after a statement, and the row it returned (`None` is the driver's "no rows"). */
  datatype Outcome = Outcome(rows: Rows, returned: Option<Lease>)

  /** The read behind `GetActive`: a row counts as active strictly before its expiry. */
  function ActiveLease(rows: Rows, session: SessionId, now: int): Option<Lease> {
    if session in rows && rows[session].expiresAt > now then Some(rows[session]) else None
  }

  function Execute(rows: Rows, st: Statement): Outcome {
    match st
    case Upsert(s, d, now, exp) =>
      if s !in rows then
        var row := Lease(d, 1, now, exp);
        Outcome(rows[s := row], Some(row))
      else if rows[s].expiresAt <= now || rows[s].device == d then
        var row := Lease(d, rows[s].version + 1, now, exp);
        Outcome(rows[s := row], Some(row))
      else
        Outcome(rows, None)
    case Renew(s, d, v, now, exp) =>
      if s in rows && rows[s].device == d && rows[s].version == v && rows[s].expiresAt > now then
        var row := rows[s].(version := v + 1, expiresAt := exp);
        Outcome(rows[s := row], Some(row))
      else
        Outcome(rows, None)
    case Release(s, d, v) =>
      if s in rows && rows[s].device == d && rows[s].version == v then
        Outcome(rows - {s}, Some(rows[s]))
      else
        Outcome(rows, None)
    case DeleteBySession(s) =>
      Outcome(rows - {s}, None)
  }

  function ExecuteAll(rows: Rows, sts: seq<Statement>): Rows
    decreases |sts|
  {
    if sts == [] then rows else ExecuteAll(Execute(rows, sts[0]).rows, sts[1..])
  }

  /** The table itself, updated in place by the five statements. */
  class Table {
    var rows: Rows

    constructor ()
      ensures rows == map[]
    {
      rows := map[];
    }

    method GetActiveControlLease(session: SessionId, now: int) returns (r: Option<Lease>)
      ensures r == ActiveLease(rows, session, now)
    {
      r := None;
      if session in rows {
        if rows[session].expiresAt > now {
          r := Some(rows[session]);
        }
      }
    }

    method UpsertControlLease(session: SessionId, device: DeviceId, now: int, expiresAt: int)
      returns (r: Option<Lease>)
      modifies this
      ensures Outcome(rows, r) == Execute(old(rows), Upsert(session, device, now, expiresAt))
    {
      r := None;
      if session !in rows {
        rows := rows[session := Lease(device, 1, now, expiresAt)];
        r := Some(rows[session]);
      } else if rows[session].expiresAt <= now || rows[session].device == device {
        rows := rows[session := Lease(device, rows[session].version + 1, now, expiresAt)];
        r := Some(rows[session]);
      }
    }

    method RenewControlLease(session: SessionId, device: DeviceId, version: int, now: int, expiresAt: int)
      returns (r: Option<Lease>)
      modifies this
      ensures Outcome(rows, r) == Execute(old(rows), Renew(session, device, version, now, expiresAt))
    {
      r := None;
      if session in rows && rows[session].device == device && rows[session].version == version
         && rows[session].expiresAt > now {
        rows := rows[session := rows[session].(version := version + 1, expiresAt := expiresAt)];
        r := Some(rows[session]);
      }
    }

    method ReleaseControlLease(session: SessionId, device: DeviceId, version: int) returns (r: Option<Lease>)
      modifies this
      ensures Outcome(rows, r) == Execute(old(rows), Release(session, device, version))
    {
      r := None;
      if session in rows && rows[session].device == device && rows[session].version == version {
        r := Some(rows[session]);
        rows := rows - {session};
      }
    }

    method DeleteControlLeaseBySession(session: SessionId)
      modifies this
      ensures rows == Execute(old(rows), DeleteBySession(session)).rows
      ensures session !in rows
    {
      rows := rows - {session};
    }

    /** Statements committed by other clients, one after the other. */
    method CommitAll(sts: seq<Statement>)
      modifies this
      ensures rows == ExecuteAll(old(rows), sts)
    {
      var i := 0;
      while i < |sts|
        invariant 0 <= i <= |sts|
        invariant ExecuteAll(rows, sts[i..]) == ExecuteAll(old(rows), sts)
      {
        var ignored: Option<Lease>;
        match sts[i] {
          case Upsert(s, d, now, exp) => ignored := UpsertControlLease(s, d, now, exp);
          case Renew(s, d, v, now, exp) => ignored := RenewControlLease(s, d, v, now, exp);
          case Release(s, d, v) => ignored := ReleaseControlLease(s, d, v);
          case DeleteBySession(s) => DeleteControlLeaseBySession(s);
        }
        assert sts[i..][1..] == sts[i + 1..];
        i := i + 1;
      }
    }
  }

  // ----- one statement

  ghost predicate Grants(rows: Rows, st: Statement, session: SessionId) {
    (st.Upsert? || st.Renew?) && st.session == session && Execute(rows, st).returned.Some?
  }

  /** No statement touches the row of another session. */
  lemma OtherSessionsUntouched(rows: Rows, st: Statement, x: SessionId)
    requires x != st.session
    ensures x in Execute(rows, st).rows <==> x in rows
    ensures x in rows ==> Execute(rows, st).rows[x] == rows[x]
  {
  }

  /** An upsert is granted unless another device's row is still unexpired; the row it returns is in the table, fresh or
      one version on, and a refused upsert changes nothing. */
  lemma UpsertExactly(rows: Rows, s: SessionId, d: DeviceId, now: int, exp: int)
    ensures var out := Execute(rows, Upsert(s, d, now, exp));
            && (out.returned.None? <==> s in rows && rows[s].expiresAt > now && rows[s].device != d)
            && (out.returned.None? ==> out.rows == rows)
            && (out.returned.Some? ==>
                  && s in out.rows && out.rows[s] == out.returned.value && out.rows[s].device == d
                  && out.rows[s].grantedAt == now && out.rows[s].expiresAt == exp
                  && out.rows[s].version == 1 + (if s in rows then rows[s].version else 0))
  {
  }

  /** A renewal succeeds for the holder at the current version before the expiry, keeps device and grant time, and
      otherwise changes nothing. */
  lemma RenewExactly(rows: Rows, s: SessionId, d: DeviceId, v: int, now: int, exp: int)
    ensures var out := Execute(rows, Renew(s, d, v, now, exp));
            && (out.returned.Some? <==>
                  s in rows && rows[s].device == d && rows[s].version == v && now < rows[s].expiresAt)
            && (out.returned.None? ==> out.rows == rows)
            && (out.returned.Some? ==>
                  && s in out.rows && out.rows[s] == out.returned.value && out.rows[s].device == d
                  && out.rows[s].version - v == 1 && out.rows[s].expiresAt == exp
                  && out.rows[s].grantedAt == rows[s].grantedAt)
  {
  }

  /** A deletion leaves no row of the session behind, and so does a release by the holder at the current version. */
  lemma DeletionsExactly(rows: Rows, st: Statement)
    requires st.Release? || st.DeleteBySession?
    ensures var out := Execute(rows, st);
            if st.DeleteBySession? || (st.session in rows && rows[st.session].device == st.device
                                       && rows[st.session].version == st.version)
            then st.session !in out.rows && (st.Release? ==> out.returned == Some(rows[st.session]))
            else out == Outcome(rows, None)
  {
  }

  /** A row that survives a statement changes hands exactly when an upsert of another device
      finds it expired by the clock that upsert brought along. */
  lemma HandoverExactlyWhenExpired(rows: Rows, st: Statement, s: SessionId)
    requires s in rows && s in Execute(rows, st).rows
    ensures Execute(rows, st).rows[s].device != rows[s].device
            <==> st.Upsert? && st.session == s && st.device != rows[s].device && rows[s].expiresAt <= st.now
    ensures Execute(rows, st).rows[s].device != rows[s].device
            ==> Execute(rows, st).rows[s].device == st.device
                && Execute(rows, st).rows[s].grantedAt >= rows[s].expiresAt
  {
  }

  /** A release deletes nothing but the row of its own device at its own version. */
  lemma ReleaseDeletesOnlyItsOwnLease(rows: Rows, s: SessionId, d: DeviceId, v: int, x: SessionId)
    requires x in rows && x !in Execute(rows, Release(s, d, v)).rows
    ensures x == s && rows[x].device == d && rows[x].version == v
  {
  }

  // ----- runs

  /** `states[k + 1]` is what statement `k` made of `states[k]`. */
  ghost predicate IsRun(states: seq<Rows>, sts: seq<Statement>) {
    && |states| == |sts| + 1
    && states[0] == map[]
    && forall k | 0 <= k < |sts| :: states[k + 1] == Execute(states[k], sts[k]).rows
  }

  predicate Clocked(st: Statement) {
    st.Upsert? || st.Renew?
  }

  /** Every grant asks for the same time to live, and the clocks of the grants never run backwards. */
  ghost predicate SharedClock(sts: seq<Statement>, ttl: int) {
    && (forall k | 0 <= k < |sts| && Clocked(sts[k]) :: sts[k].expiresAt == sts[k].now + ttl)
    && (forall i, j | 0 <= i < j < |sts| && Clocked(sts[i]) && Clocked(sts[j]) :: sts[i].now <= sts[j].now)
  }

  /** The row is present in every state from `i` to `j`. */
  ghost predicate Alive(states: seq<Rows>, s: SessionId, i: nat, j: nat) {
    j < |states| && forall k | i <= k <= j :: s in states[k]
  }

  /** Every expiry in the table was written by an earlier grant of the run. */
  lemma {:induction false} ExpiryWrittenByGrant(states: seq<Rows>, sts: seq<Statement>, ttl: int, s: SessionId, k: nat)
    returns (m: nat)
    requires IsRun(states, sts) && SharedClock(sts, ttl)
    requires k < |states| && s in states[k]
    ensures m < k && Clocked(sts[m]) && states[k][s].expiresAt == sts[m].now + ttl
  {
    var before, st := states[k - 1], sts[k - 1];
    assert states[k] == Execute(before, st).rows;
    if Clocked(st) && st.session == s && Execute(before, st).returned.Some? {
      m := k - 1;
    } else {
      m := ExpiryWrittenByGrant(states, sts, ttl, s, k - 1);
    }
  }

  lemma {:induction false} ExpiryNeverDecreases(
    states: seq<Rows>, sts: seq<Statement>, ttl: int, s: SessionId, i: nat, j: nat)
    requires IsRun(states, sts) && SharedClock(sts, ttl)
    requires i <= j && Alive(states, s, i, j)
    ensures states[i][s].expiresAt <= states[j][s].expiresAt
  {
    if i < j {
      ExpiryNeverDecreases(states, sts, ttl, s, i, j - 1);
      assert states[j] == Execute(states[j - 1], sts[j - 1]).rows;
      var m := ExpiryWrittenByGrant(states, sts, ttl, s, j - 1);
    }
  }

  /** Once `g` was handed out, either its device still holds the row until at least `g`'s expiry,
      or a grant at or after that expiry has happened. */
  lemma {:induction false} HeldUntilExpiry(
    states: seq<Rows>, sts: seq<Statement>, ttl: int, s: SessionId, i: nat, k: nat, g: Lease)
    returns (taken: Option<nat>)
    requires IsRun(states, sts) && SharedClock(sts, ttl)
    requires i < k < |states| && Grants(states[i], sts[i], s) && Execute(states[i], sts[i]).returned == Some(g)
    requires Alive(states, s, i + 1, k)
    ensures taken.None? ==> states[k][s].device == g.device && states[k][s].expiresAt >= g.expiresAt
    ensures taken.Some? ==> i < taken.value < k && Clocked(sts[taken.value]) && sts[taken.value].now >= g.expiresAt
  {
    assert states[k] == Execute(states[k - 1], sts[k - 1]).rows;
    if k == i + 1 {
      taken := None;
    } else {
      taken := HeldUntilExpiry(states, sts, ttl, s, i, k - 1, g);
      if taken.None? {
        HandoverExactlyWhenExpired(states[k - 1], sts[k - 1], s);
        ExpiryNeverDecreases(states, sts, ttl, s, k - 1, k);
        if states[k][s].device != g.device {
          taken := Some(k - 1);
        }
      }
    }
  }

  /** Exclusivity: a lease handed out for a session shuts every other device out until the expiry
      it carries, as long as the row is not deleted in between. */
  lemma {:induction false} NoOtherDeviceBeforeExpiry(
    states: seq<Rows>, sts: seq<Statement>, ttl: int, s: SessionId, i: nat, j: nat, g: Lease, h: Lease)
    requires IsRun(states, sts) && SharedClock(sts, ttl)
    requires i < j < |sts| && Alive(states, s, i + 1, j)
    requires Grants(states[i], sts[i], s) && Execute(states[i], sts[i]).returned == Some(g)
    requires Grants(states[j], sts[j], s) && Execute(states[j], sts[j]).returned == Some(h)
    requires h.device != g.device
    ensures sts[j].now >= g.expiresAt
  {
    var taken := HeldUntilExpiry(states, sts, ttl, s, i, j, g);
    if taken.None? {
      HandoverExactlyWhenExpired(states[j], sts[j], s);
    }
  }

  // ----- versions

  /** The number of grants of session `s` since its row last came into being. */
  ghost function LifetimeGrants(states: seq<Rows>, sts: seq<Statement>, s: SessionId, k: nat): nat
    requires IsRun(states, sts) && k < |states|
  {
    if s !in states[k] then 0
    else if k == 0 then 0
    else LifetimeGrants(states, sts, s, k - 1) + if Grants(states[k - 1], sts[k - 1], s) then 1 else 0
  }

  /** Within one lifetime of the row the version counts the grants, starting at 1. */
  lemma {:induction false} VersionCountsGrants(states: seq<Rows>, sts: seq<Statement>, s: SessionId, k: nat)
    requires IsRun(states, sts) && k < |states| && s in states[k]
    ensures states[k][s].version == LifetimeGrants(states, sts, s, k) >= 1
  {
    assert states[k] == Execute(states[k - 1], sts[k - 1]).rows;
    if s in states[k - 1] {
      VersionCountsGrants(states, sts, s, k - 1);
    }
  }

  lemma {:induction false} VersionNeverDecreases(states: seq<Rows>, sts: seq<Statement>, s: SessionId, i: nat, j: nat)
    requires IsRun(states, sts)
    requires i <= j && Alive(states, s, i, j)
    ensures states[i][s].version <= states[j][s].version
  {
    if i < j {
      VersionNeverDecreases(states, sts, s, i, j - 1);
      assert states[j] == Execute(states[j - 1], sts[j - 1]).rows;
    }
  }

  /** A renew or release of session `s` that presents version `v` and takes effect. */
  ghost predicate Spends(rows: Rows, st: Statement, s: SessionId, v: int) {
    (st.Renew? || st.Release?) && st.session == s && st.version == v && Execute(rows, st).returned.Some?
  }

  /** The version is a compare-and-swap token: within one lifetime of the row at most one renew
      or release presenting a given version succeeds. */
  lemma VersionSpentOnce(states: seq<Rows>, sts: seq<Statement>, s: SessionId, v: int, i: nat, j: nat)
    requires IsRun(states, sts)
    requires i < j < |sts|
    requires Spends(states[i], sts[i], s, v) && Spends(states[j], sts[j], s, v)
    ensures !Alive(states, s, i, j)
  {
    assert states[i + 1] == Execute(states[i], sts[i]).rows;
    if Alive(states, s, i, j) {
      VersionNeverDecreases(states, sts, s, i + 1, j);
    }
  }
}
