/**
  The viewer's side of the lease: a small state machine driven by buttons, by envelopes from the
  relay, and by its own renewal timer. All instants are on the viewer's clock.
 */
module ViewerControl {
  import opened Base
  import opened LeaseTable

  datatype ControlState = Nothing | Requesting | Granted | Denied | Revoked

  datatype Message =
    | ControlAcquire(session: SessionId)
    | ControlRenew(session: SessionId, version: int)
    | ControlRelease(session: SessionId, version: int)

  datatype Envelope = ControlGranted(version: int, expiresAt: int) | ControlDenied | ControlRevoked | OtherEnvelope

  const RENEW_LEAD: int := 30 * SECOND
  const RENEW_FLOOR: int := 5 * SECOND

  /** How long after a grant the renewal timer is set. */
  function RenewDelay(expiresAt: int, now: int): int {
    var early := expiresAt - now - RENEW_LEAD;
    if RENEW_FLOOR >= early then RENEW_FLOOR else early
  }

  /** With a lead as long as the time to live the timer always sits at its floor. */
  lemma RenewDelayIsTheFloor(executed: int, received: int, expiresAt: int)
    requires executed <= received && expiresAt <= executed + 30 * SECOND
    ensures RenewDelay(expiresAt, received) == RENEW_FLOOR
  {
  }

  /** The renewal is sent half a minute before the expiry if that is at least 5 seconds away, and otherwise in 5
      seconds. */
  lemma RenewalIsDue(expiresAt: int, now: int)
    ensures expiresAt - now >= 35_000_000 ==> now + RenewDelay(expiresAt, now) + 30_000_000 == expiresAt
    ensures expiresAt - now <= 35_000_000 ==> RenewDelay(expiresAt, now) == 5_000_000
  {
  }

  class Control {
    const session: SessionId
    var state: ControlState
    var leaseVersion: Option<int>
    var renewAt: Option<int>         // when the pending renewal timer fires
    var sent: seq<Message>           // what went to the relay, oldest first
    var reported: seq<ControlState>  // what the state callback was told

    /** Input is offered only with a version at hand, and a timer never waits without one. */
    predicate Valid()
      reads this
    {
      && (state.Granted? ==> leaseVersion.Some?)
      && (renewAt.Some? ==> leaseVersion.Some?)
      && state == (if reported == [] then Nothing else reported[|reported| - 1])
    }

    constructor (session: SessionId)
      ensures Valid() && this.session == session
      ensures state == Nothing && leaseVersion == None && renewAt == None && sent == [] && reported == []
    {
      this.session := session;
      state, leaseVersion, renewAt, sent, reported := Nothing, None, None, [], [];
    }

    /** The callback hears of changes only. */
    method SetState(next: ControlState)
      modifies this`state, this`reported
      ensures state == next
      ensures reported == if old(state) == next then old(reported) else old(reported) + [next]
    {
      if state == next {
        return;
      }
      state := next;
      reported := reported + [next];
    }

    method RequestControl()
      requires Valid()
      modifies this
      ensures reported == if state == old(state) then old(reported) else old(reported) + [state]
      ensures Valid() && state == Requesting
      ensures sent == old(sent) + [ControlAcquire(session)]
      ensures leaseVersion == old(leaseVersion) && renewAt == old(renewAt)
    {
      sent := sent + [ControlAcquire(session)];
      SetState(Requesting);
    }

    /** Gives the lease back; without one it does nothing. */
    method ReleaseControl()
      requires Valid()
      modifies this
      ensures reported == if state == old(state) then old(reported) else old(reported) + [state]
      ensures Valid()
      ensures if old(state).Granted? then
                && sent == old(sent) + [ControlRelease(session, old(leaseVersion).value)]
                && state == Nothing && leaseVersion == None && renewAt == None
              else
                && sent == old(sent) && state == old(state)
                && leaseVersion == old(leaseVersion) && renewAt == old(renewAt)
    {
      if state != Granted || leaseVersion.None? {
        return;
      }
      sent := sent + [ControlRelease(session, leaseVersion.value)];
      renewAt := None;
      leaseVersion := None;
      SetState(Nothing);
    }

    method HandleEnvelope(env: Envelope, now: int)
      requires Valid()
      modifies this
      ensures reported == if state == old(state) then old(reported) else old(reported) + [state]
      ensures Valid() && sent == old(sent)
      ensures match env
              case ControlGranted(v, exp) =>
                state == Granted && leaseVersion == Some(v) && renewAt == Some(now + RenewDelay(exp, now))
              case ControlDenied => state == Denied && leaseVersion == None && renewAt == None
              case ControlRevoked => state == Revoked && leaseVersion == None && renewAt == None
              case OtherEnvelope => state == old(state) && leaseVersion == old(leaseVersion) && renewAt == old(renewAt)
    {
      match env {
        case ControlGranted(v, exp) =>
          leaseVersion := Some(v);
          SetState(Granted);
          renewAt := Some(now + RenewDelay(exp, now));
        case ControlDenied =>
          renewAt, leaseVersion := None, None;
          SetState(Denied);
        case ControlRevoked =>
          renewAt, leaseVersion := None, None;
          SetState(Revoked);
        case OtherEnvelope =>
      }
    }

    /** The timer goes off: the latest version is renewed, unless control was lost or asked for anew. */
    method RenewTimerFires()
      requires Valid() && renewAt.Some?
      modifies this
      ensures reported == if state == old(state) then old(reported) else old(reported) + [state]
      ensures Valid() && renewAt == None
      ensures state == old(state) && leaseVersion == old(leaseVersion)
      ensures sent == old(sent) + if state.Granted? then [ControlRenew(session, leaseVersion.value)] else []
    {
      renewAt := None;
      if state != Granted || leaseVersion.None? {
        return;
      }
      sent := sent + [ControlRenew(session, leaseVersion.value)];
    }

    method OnConnectionDropped()
      requires Valid()
      modifies this
      ensures reported == if state == old(state) then old(reported) else old(reported) + [state]
      ensures Valid() && state == Nothing && leaseVersion == None && renewAt == None && sent == old(sent)
    {
      renewAt, leaseVersion := None, None;
      SetState(Nothing);
    }

    method CanSendInput() returns (can: bool)
      requires Valid()
      ensures can == state.Granted?
      ensures can ==> leaseVersion.Some?
    {
      can := state == Granted;
    }
  }
}
