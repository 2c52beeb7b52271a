/**
  The lease service: the checks before each statement, and Acquire's read followed by its
  upsert with other clients' statements committed in between.
 */
module LeaseService {
  import opened Base
  import opened LeaseTable

  datatype Error = Unauthorized | NotFound | SessionNotControllable | AlreadyControlled | StaleLease | RepositoryFailure

  datatype Actor = Actor(user: string, device: DeviceId)

  datatype SessionLookup = SessionFound(status: string) | SessionMissing | SessionLookupFailed
  datatype DeviceLookup = DeviceFound | DeviceMissing | DeviceLookupFailed

  /** What the rest of the database answers during one call. A failing read or write has no effect. */
  datatype Answers = Answers(session: SessionLookup, device: DeviceLookup, readFails: bool, writeFails: bool)

  const DEFAULT_TTL: int := 30 * SECOND

  predicate IsControllableStatus(status: string) {
    status == "running" || status == "idle"
  }

  /** The error a call ends with before it reaches the lease table, in the order the checks are made;
      `version` is absent for Acquire. */
  function Refusal(actor: Actor, session: SessionId, version: Option<int>, a: Answers): Option<Error> {
    if actor.user == "" || actor.device == "" then Some(Unauthorized)
    else if session == "" then Some(NotFound)
    else if version.Some? && version.value <= 0 then Some(StaleLease)
    else match a.session
      case SessionMissing => Some(NotFound)
      case SessionLookupFailed => Some(RepositoryFailure)
      case SessionFound(status) =>
        if !IsControllableStatus(status) then Some(SessionNotControllable)
        else match a.device
          case DeviceMissing => Some(Unauthorized)
          case DeviceLookupFailed => Some(RepositoryFailure)
          case DeviceFound => None
  }

  /** Which error a call ends with, cause by cause: the first cause present decides. */
  lemma RefusalIsTheFirstCause(actor: Actor, session: SessionId, version: Option<int>, a: Answers)
    ensures var r := Refusal(actor, session, version, a);
            var known := actor.user != "" && actor.device != "";
            var asked := known && session != "" && (version.Some? ==> version.value > 0);
            var live := asked && a.session.SessionFound?
                        && (a.session.status == "running" || a.session.status == "idle");
            && (r == Some(Unauthorized) <==> !known || (live && a.device.DeviceMissing?))
            && (r == Some(NotFound) <==> known && (session == "" || (asked && a.session.SessionMissing?)))
            && (r == Some(StaleLease) <==> known && session != "" && version.Some? && version.value <= 0)
            && (r == Some(SessionNotControllable) <==>
                  asked && a.session.SessionFound? && a.session.status != "running" && a.session.status != "idle")
            && (r == Some(RepositoryFailure) <==>
                  (asked && a.session.SessionLookupFailed?) || (live && a.device.DeviceLookupFailed?))
            && (r == None <==> live && a.device.DeviceFound?)
            && r != Some(AlreadyControlled)
  {
  }

  datatype Effect = Effect(rows: Rows, result: Result<Lease, Error>)

  /** The one-step meaning of Acquire: grant unless another device holds an unexpired row. */
  function AtomicAcquire(rows: Rows, session: SessionId, device: DeviceId, now: int, ttl: int): Effect {
    if ActiveLease(rows, session, now).Some? && rows[session].device != device then
      Effect(rows, Err(AlreadyControlled))
    else
      var version := if session in rows then rows[session].version + 1 else 1;
      var row := Lease(device, version, now, now + ttl);
      Effect(rows[session := row], Ok(row))
  }

  /** The two-step Acquire as the service runs it: a read, the statements of others, an upsert. */
  function TwoStepAcquire(rows: Rows, others: seq<Statement>, session: SessionId, device: DeviceId, now: int, ttl: int)
    : Effect
  {
    var active := ActiveLease(rows, session, now);
    var rows' := ExecuteAll(rows, others);
    if active.Some? && active.value.device != device then
      Effect(rows', Err(AlreadyControlled))
    else
      var out := Execute(rows', Upsert(session, device, now, now + ttl));
      Effect(out.rows, if out.returned.Some? then Ok(out.returned.value) else Err(AlreadyControlled))
  }

  lemma {:induction false} ExecuteAllSplits(rows: Rows, before: seq<Statement>, after: seq<Statement>)
    ensures ExecuteAll(rows, before + after) == ExecuteAll(ExecuteAll(rows, before), after)
    decreases |before|
  {
    if before == [] {
      assert before + after == after;
    } else {
      assert (before + after)[1..] == before[1..] + after;
      ExecuteAllSplits(Execute(rows, before[0]).rows, before[1..], after);
    }
  }

  /** Whatever other clients commit between the read and the upsert, result and final table are
      those of one atomic acquire placed at the read (`cut == 0`) or at the upsert. */
  lemma AcquireIsLinearizable(rows: Rows, others: seq<Statement>, s: SessionId, d: DeviceId, now: int, ttl: int)
    returns (cut: nat)
    ensures cut == 0 || cut == |others|
    ensures var at := AtomicAcquire(ExecuteAll(rows, others[..cut]), s, d, now, ttl);
            TwoStepAcquire(rows, others, s, d, now, ttl) == Effect(ExecuteAll(at.rows, others[cut..]), at.result)
  {
    var active := ActiveLease(rows, s, now);
    if active.Some? && active.value.device != d {
      cut := 0;
      assert others[..0] == [] && others[0..] == others;
    } else {
      cut := |others|;
      assert others[..cut] == others && others[cut..] == [];
    }
  }

  /** The atomic acquire is one statement of the table, whether it is granted or refused. */
  lemma AtomicAcquireIsUpsert(rows: Rows, s: SessionId, d: DeviceId, now: int, ttl: int)
    ensures var out := Execute(rows, Upsert(s, d, now, now + ttl)); var e := AtomicAcquire(rows, s, d, now, ttl);
            && e.rows == out.rows
            && e.result == if out.returned.Some? then Ok(out.returned.value) else Err(AlreadyControlled)
  {
  }

  /** Linearizability in a whole history: a two-step acquire with any statements before, between and after its two
      steps can be replaced by one statement at a point between the two, without a difference to its own result or
      to the table at any later time. */
  lemma AcquireLinearizesInHistory(
    rows: Rows, before: seq<Statement>, others: seq<Statement>, after: seq<Statement>,
    s: SessionId, d: DeviceId, now: int, ttl: int)
    returns (cut: nat)
    ensures cut <= |others|
    ensures var st := Upsert(s, d, now, now + ttl);
            var mine := TwoStepAcquire(ExecuteAll(rows, before), others, s, d, now, ttl);
            var earlier := ExecuteAll(rows, before + others[..cut]);
            && ExecuteAll(mine.rows, after) == ExecuteAll(rows, before + others[..cut] + [st] + others[cut..] + after)
            && (mine.result.Ok? <==> Execute(earlier, st).returned.Some?)
            && (mine.result.Ok? ==> Execute(earlier, st).returned == Some(mine.result.value))
  {
    var st := Upsert(s, d, now, now + ttl);
    var start := ExecuteAll(rows, before);
    cut := AcquireIsLinearizable(start, others, s, d, now, ttl);
    ExecuteAllSplits(rows, before, others[..cut]);
    AtomicAcquireIsUpsert(ExecuteAll(start, others[..cut]), s, d, now, ttl);
    OneMoreStatement(rows, before + others[..cut], st);
    ExecuteAllSplits(rows, before + others[..cut] + [st], others[cut..]);
    ExecuteAllSplits(rows, before + others[..cut] + [st] + others[cut..], after);
  }

  lemma OneMoreStatement(rows: Rows, sts: seq<Statement>, st: Statement)
    ensures ExecuteAll(rows, sts + [st]) == Execute(ExecuteAll(rows, sts), st).rows
  {
    ExecuteAllSplits(rows, sts, [st]);
    assert [st][1..] == [];
    assert ExecuteAll(ExecuteAll(rows, sts), [st]) == ExecuteAll(Execute(ExecuteAll(rows, sts), st).rows, []);
  }

  /** An acquire that is refused by the table leaves the table to the others; one that succeeds
      hands out a full time to live and never takes an unexpired row from another device. */
  lemma AcquireNeverSteals(rows: Rows, others: seq<Statement>, s: SessionId, d: DeviceId, now: int, ttl: int)
    ensures var e, rows' := TwoStepAcquire(rows, others, s, d, now, ttl), ExecuteAll(rows, others);
            if e.result.Ok? then
              && e.rows == rows'[s := e.result.value]
              && e.result.value.device == d
              && e.result.value.expiresAt == now + ttl
              && (s in rows' && rows'[s].device != d ==> rows'[s].expiresAt <= now)
            else
              && e == Effect(rows', Err(AlreadyControlled))
              && ((s in rows && rows[s].device != d && rows[s].expiresAt > now)
                  || (s in rows' && rows'[s].device != d && rows'[s].expiresAt > now))
  {
  }

  class Service {
    const ttl: int
    const table: Table

    constructor (table: Table, ttl: int)
      ensures this.table == table
      ensures this.ttl == if ttl <= 0 then 30_000_000 else ttl
    {
      this.table := table;
      this.ttl := if ttl <= 0 then DEFAULT_TTL else ttl;
    }

    method Acquire(actor: Actor, session: SessionId, now: int, a: Answers, others: seq<Statement>)
      returns (r: Result<Lease, Error>)
      modifies table
      ensures r.Ok? ==>
                && actor.user != "" && actor.device != "" && session != ""
                && a.session.SessionFound? && (a.session.status == "running" || a.session.status == "idle")
                && a.device.DeviceFound?
      ensures var refusal := Refusal(actor, session, None, a);
              if refusal.Some? then
                table.rows == old(table.rows) && r == Err(refusal.value)
              else if a.readFails then
                table.rows == old(table.rows) && r == Err(RepositoryFailure)
              else
                var e := TwoStepAcquire(old(table.rows), others, session, actor.device, now, ttl);
                if a.writeFails && !(ActiveLease(old(table.rows), session, now).Some?
                                     && old(table.rows)[session].device != actor.device) then
                  table.rows == ExecuteAll(old(table.rows), others) && r == Err(RepositoryFailure)
                else
                  Effect(table.rows, r) == e
    {
      var refusal := Refusal(actor, session, None, a);
      if refusal.Some? {
        return Err(refusal.value);
      }
      if a.readFails {
        return Err(RepositoryFailure);
      }
      var active := table.GetActiveControlLease(session, now);
      table.CommitAll(others);
      if active.Some? && active.value.device != actor.device {
        return Err(AlreadyControlled);
      }
      if a.writeFails {
        return Err(RepositoryFailure);
      }
      var lease := table.UpsertControlLease(session, actor.device, now, now + ttl);
      if lease.None? {
        return Err(AlreadyControlled);
      }
      return Ok(lease.value);
    }

    /** A renewal keeps the grant time, moves the version on by one and the expiry to a full
        time to live from now; it succeeds exactly for the holder at the current version of an
        unexpired row. */
    method Renew(actor: Actor, session: SessionId, version: int, now: int, a: Answers)
      returns (r: Result<Lease, Error>)
      modifies table
      ensures r.Ok? ==>
                && actor.user != "" && actor.device != "" && session != "" && version > 0
                && a.session.SessionFound? && (a.session.status == "running" || a.session.status == "idle")
                && a.device.DeviceFound?
      ensures var rows, refusal := old(table.rows), Refusal(actor, session, Some(version), a);
              if refusal.Some? then
                table.rows == rows && r == Err(refusal.value)
              else if a.writeFails then
                table.rows == rows && r == Err(RepositoryFailure)
              else if ActiveLease(rows, session, now).Some?
                      && rows[session].device == actor.device && rows[session].version == version then
                && r == Ok(Lease(actor.device, version + 1, rows[session].grantedAt, now + ttl))
                && table.rows == rows[session := r.value]
              else
                table.rows == rows && r == Err(StaleLease)
    {
      var refusal := Refusal(actor, session, Some(version), a);
      if refusal.Some? {
        return Err(refusal.value);
      }
      if a.writeFails {
        return Err(RepositoryFailure);
      }
      var lease := table.RenewControlLease(session, actor.device, version, now, now + ttl);
      if lease.None? {
        return Err(StaleLease);
      }
      return Ok(lease.value);
    }

    /** A release removes the holder's row at the current version, expired or not, and nothing else. */
    method Release(actor: Actor, session: SessionId, version: int, a: Answers) returns (r: Result<Lease, Error>)
      modifies table
      ensures r.Ok? ==>
                && actor.user != "" && actor.device != "" && session != "" && version > 0
                && a.session.SessionFound? && (a.session.status == "running" || a.session.status == "idle")
                && a.device.DeviceFound?
      ensures var rows, refusal := old(table.rows), Refusal(actor, session, Some(version), a);
              if refusal.Some? then
                table.rows == rows && r == Err(refusal.value)
              else if a.writeFails then
                table.rows == rows && r == Err(RepositoryFailure)
              else if session in rows && rows[session].device == actor.device && rows[session].version == version then
                table.rows == rows - {session} && r == Ok(rows[session])
              else
                table.rows == rows && r == Err(StaleLease)
    {
      var refusal := Refusal(actor, session, Some(version), a);
      if refusal.Some? {
        return Err(refusal.value);
      }
      if a.writeFails {
        return Err(RepositoryFailure);
      }
      var lease := table.ReleaseControlLease(session, actor.device, version);
      if lease.None? {
        return Err(StaleLease);
      }
      return Ok(lease.value);
    }
  }
}
