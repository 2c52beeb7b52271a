/**
  What becomes of a holder whose renewal or release the lease service refuses: the error is turned into a reason,
  travels to the relay, and decides there whether the holder can go on typing.
 */
module RelayDenial {
  import opened Base
  import opened LeaseTable
  import opened Registry
  import LeaseService
  import RelayServer

  /** The word an error is sent with. */
  function ReasonOf(e: LeaseService.Error): string {
    match e
    case Unauthorized => "unauthorized"
    case NotFound => "not_found"
    case SessionNotControllable => "session_not_controllable"
    case AlreadyControlled => "already_controlled"
    case StaleLease => "stale_lease"
    case RepositoryFailure => "internal"
  }

  /** The words the relay's client takes for a denial; any other answer counts as a broken call. */
  predicate IsDeniedReason(reason: string) {
    || reason == "unauthorized" || reason == "not_found" || reason == "already_controlled"
    || reason == "invalid_request" || reason == "stale_lease" || reason == "session_not_controllable"
  }

  /** What a call that ends with an error looks like to the relay. */
  function AnswerTo(e: LeaseService.Error): RelayServer.Rpc {
    if IsDeniedReason(ReasonOf(e)) then RelayServer.DeniedWith(ReasonOf(e)) else RelayServer.Broken
  }

  /** Of the errors of the lease service, exactly a repository failure ends the connection. */
  lemma OnlyRepositoryFailureBreaks(e: LeaseService.Error)
    ensures AnswerTo(e).Broken? <==> e.RepositoryFailure?
    ensures !AnswerTo(e).Reached?
  {
  }

  /** A renewal or a release of the cached grant that the service ends with an error. A repository failure closes the
      connection; after any other error the holder is told the reason, and has its cached grant left only if that was
      "already controlled", with which neither call ends. */
  method AskInVain(
      server: RelayServer.Server, p: Peer, token: DeviceId, s: SessionId, v: int, renewal: bool, e: LeaseService.Error)
    returns (reply: RelayServer.Reply)
    requires server.Valid() && server.Ready(p, token) && server.Holding(p, s, v) && s != "" && v > 0
    modifies server`run, server.reg, server.table
    ensures server.Valid() && server.Clock() == old(server.Clock()) && server.table.rows == old(server.table.rows)
    ensures if e.RepositoryFailure? then reply == RelayServer.CloseConnection
            else reply == RelayServer.Refused(ReasonOf(e)) && server.Ready(p, token)
    ensures !e.RepositoryFailure? ==>
              if e.AlreadyControlled? then server.reg.Contents() == old(server.reg.Contents())
              else s !in server.reg.controllers
  {
    if renewal {
      reply := server.HandleControlRenew(p, token, s, v, AnswerTo(e));
    } else {
      reply := server.HandleControlRelease(p, token, s, v, AnswerTo(e));
    }
  }

  /** And the holder types on: its next frame goes nowhere. */
  method DeniedThenTyping(
      server: RelayServer.Server, p: Peer, token: DeviceId, s: SessionId, v: int, renewal: bool, e: LeaseService.Error,
      now: int, raw: bool, hv: int)
    returns (reply: RelayServer.Reply, forwarded: bool)
    requires server.Valid() && server.Ready(p, token) && server.Holding(p, s, v) && s != "" && v > 0
    requires server.Clock() <= now
    modifies server`run, server.reg, server.table
    ensures server.table.rows == old(server.table.rows)
    ensures reply.CloseConnection? <==> e.RepositoryFailure?
    ensures forwarded <==>
              && e.AlreadyControlled?
              && now <= old(server.reg.controllers)[s].expiresAt && raw && (hv == 0 || hv == v)
              && s in old(server.reg.daemons)
  {
    reply := AskInVain(server, p, token, s, v, renewal, e);
    if reply.CloseConnection? {
      return reply, false;
    }
    ghost var decided;
    forwarded, decided := server.ForwardInput(p, token, s, now, raw, hv);
  }
}
