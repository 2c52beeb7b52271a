/**
  The relay's message handlers as they change registry and lease table in place, when nothing comes in between:
  which branch is taken, what is answered, and that cache and table still agree afterwards. Along with them goes
  a run of the transition system in RelayProtocol that does the same, step by step.
 */
module RelayServer {
  import opened Base
  import opened LeaseTable
  import opened Registry
  import opened RelayProtocol
  import opened RelaySimulation
  import RelaySafety

  /** A call to the control plane: it reaches the lease table with some clock reading, is denied before
      that, or breaks. */
  datatype Rpc = Reached(at: int) | DeniedWith(reason: string) | Broken

  datatype Reply = Granted(grant: Grant) | Revoked(version: int) | Refused(reason: string) | CloseConnection

  /** Every cached grant is filed under its session and is the row in the table. */
  ghost predicate Agreement(controllers: map<SessionId, Entry>, rows: Rows) {
    forall s | s in controllers :: controllers[s].session == s && RelaySafety.EntryBacked(rows, controllers[s])
  }

  /** The row of `s` one version on, with a full time to live from `at`. */
  function Extended(rows: Rows, s: SessionId, at: int, ttl: int): Rows
    requires s in rows
  {
    rows[s := rows[s].(version := rows[s].version + 1, expiresAt := at + ttl)]
  }

  /** The grant that answers the renewal of version `v`. */
  function NextGrant(v: int, at: int, ttl: int): Grant {
    Grant(v + 1, WholeSeconds(at + ttl))
  }

  class Server {
    const reg: ConnectionRegistry
    const table: Table
    const ttl: int
    ghost var run: Run  // what has happened so far, as a run of the transition system

    /** Cache and table agree, and both are where the run leads. */
    ghost predicate Valid()
      reads this, reg, table
    {
      && Settled(run)
      && StateOf(run).ttl == ttl && StateOf(run).rows == table.rows && StateOf(run).reg == reg.Contents()
      && Agreement(reg.controllers, table.rows)
    }

    /** Connection `p` of device `d` is waiting for its next message. */
    ghost predicate Ready(p: Peer, d: DeviceId)
      reads this
    {
      Legal(run) && Serves(StateOf(run), p, d)
    }

    /** The latest time the run knows of. */
    ghost function Clock(): int
      requires Legal(run)
      reads this
    {
      StateOf(run).now
    }

    predicate Holding(p: Peer, s: SessionId, v: int)
      reads this, reg
    {
      s in reg.controllers && reg.controllers[s].peer == p && reg.controllers[s].version == v
    }

    constructor (ttl: int, now: int)
      ensures fresh(reg) && fresh(table) && this.ttl == ttl
      ensures Valid() && reg.Contents() == EMPTY && table.rows == map[] && run == Start(ttl, now)
    {
      this.ttl := ttl;
      reg := new ConnectionRegistry();
      table := new Table();
      run := Start(ttl, now);
    }

    method Accept(p: Peer, d: DeviceId)
      requires Valid() && !At(StateOf(run), p)
      modifies this`run
      ensures Valid() && Ready(p, d)
      ensures StateOf(run).peers == StateOf(old(run)).peers[p := Conn(d, Serving)]
    {
      run := ConnectRun(run, p, d);
    }

    /** A host announces a session; without a session id the connection is closed. */
    method HandleSessionOnline(p: Peer, d: DeviceId, s: SessionId) returns (open: bool)
      requires Valid() && Ready(p, d)
      modifies this`run, reg
      ensures Valid() && Moved(old(run), run, p, if open then Serving else Closing)
      ensures open == (s != "")
      ensures reg.Contents() == if open then SetDaemon(old(reg.Contents()), s, p) else old(reg.Contents())
    {
      if s == "" {
        run := LeaveLoopRun(run, p);
        return false;
      }
      run := SessionOnlineRun(run, p, d, s);
      reg.SetDaemonPeer(s, p);
      return true;
    }

    /** A viewer asks to watch: only an allowed viewer of a session whose host is online becomes a watcher, and
        everybody else is disconnected, as is a viewer that cannot be answered. */
    method HandleWatch(p: Peer, d: DeviceId, s: SessionId, allowed: bool, answered: bool) returns (open: bool)
      requires Valid() && Ready(p, d)
      modifies this`run, reg
      ensures Valid() && Moved(old(run), run, p, if open then Serving else Closing)
      ensures open <==> s != "" && allowed && s in old(reg.daemons) && answered
      ensures reg.Contents() ==
                if s != "" && allowed && s in old(reg.daemons) then AddWatcher(old(reg.Contents()), s, p)
                else old(reg.Contents())
    {
      if s == "" || !allowed || s !in reg.daemons {
        run := LeaveLoopRun(run, p);
        return false;
      }
      run := WatchRun(run, p, d, s);
      reg.AddWatcherPeer(s, p);
      if !answered {
        run := LeaveLoopRun(run, p);
      }
      return answered;
    }

    method HandleControlAcquire(p: Peer, token: DeviceId, s: SessionId, rpc: Rpc) returns (reply: Reply)
      requires Valid() && Ready(p, token)
      modifies this`run, reg, table
      ensures Valid() && Moved(old(run), run, p, if reply.CloseConnection? then Closing else Serving)
      ensures Clock() == old(Clock()) || (rpc.Reached? && Clock() == rpc.at)
      ensures if s == "" || !IsWatching(old(reg.Contents()), s, p) then reply == Refused("invalid_request")
              else if s !in old(reg.daemons) then reply == Refused("relay_no_daemon")
              else if rpc.Broken? then reply == CloseConnection
              else if rpc.DeniedWith? then reply == Refused(rpc.reason)
              else
                var outcome := Execute(old(table.rows), Upsert(s, token, rpc.at, rpc.at + ttl));
                && table.rows == outcome.rows
                && reply == (if outcome.returned.None? then Refused("already_controlled")
                             else Granted(GrantOf(outcome.returned.value)))
      ensures reply.Granted? ==> reg.Contents() == SetController(old(reg.Contents()), s, p, reply.grant, token)
      ensures reply.Granted? ==>
                s in table.rows && reply.grant == Grant(table.rows[s].version, WholeSeconds(table.rows[s].expiresAt))
      ensures !reply.Granted? ==> table.rows == old(table.rows) && reg.Contents() == old(reg.Contents())
    {
      Still(run, p);
      if s == "" {
        return Refused("invalid_request");
      }
      var watched := if p in reg.watching then reg.watching[p] else {};
      if s !in watched {
        return Refused("invalid_request");
      }
      if s !in reg.daemons {
        return Refused("relay_no_daemon");
      }
      if rpc.Reached? {
        reply := CallAcquire(p, token, s, rpc.at);
        return;
      }
      run := AcquireRefusedRun(run, p, token, s, if rpc.DeniedWith? then Some(rpc.reason) else None);
      return if rpc.DeniedWith? then Refused(rpc.reason) else CloseConnection;
    }

    /** The call of an acquire whose checks have passed, from the statement to the caching of its grant. */
    method CallAcquire(p: Peer, token: DeviceId, s: SessionId, at: int) returns (reply: Reply)
      requires Valid() && Ready(p, token) && IsWatching(reg.Contents(), s, p) && s in reg.daemons
      modifies this`run, reg, table
      ensures Valid() && Moved(old(run), run, p, Serving)
      ensures Clock() == old(Clock()) || Clock() == at
      ensures var outcome := Execute(old(table.rows), Upsert(s, token, at, at + ttl));
              && table.rows == outcome.rows
              && if outcome.returned.None? then
                   reply == Refused("already_controlled") && reg.Contents() == old(reg.Contents())
                   && table.rows == old(table.rows)
                 else
                   reply == Granted(GrantOf(outcome.returned.value))
                   && reg.Contents() == SetController(old(reg.Contents()), s, p, reply.grant, token)
    {
      ghost var before := run;
      var lease := table.UpsertControlLease(s, token, at, at + ttl);
      if lease.None? {
        run := AcquireRefusedRun(before, p, token, s, Some("already_controlled"));
        return Refused("already_controlled");
      }
      run := AcquireGrantedRun(before, p, token, s, at);
      GrantKeepsAgreement(reg.controllers, StateOf(before).rows, p, Upsert(s, token, at, at + ttl));
      var grant := GrantOf(lease.value);
      reg.SetControllerPeer(s, p, grant, token);
      return Granted(grant);
    }

    /** The denial of a renewal or release; some reasons also drop the grant cached for `p`. */
    method WriteDenied(p: Peer, s: SessionId, reason: string) returns (reply: Reply)
      modifies reg
      ensures reply == Refused(reason)
      ensures reg.Contents() == AfterRefusal(old(reg.Contents()), s, p, Some(reason))
      ensures s in old(reg.controllers) && old(reg.controllers)[s].peer == p ==>
                (s !in reg.controllers <==> reason == "stale_lease" || reason == "unauthorized"
                                            || reason == "not_found" || reason == "session_not_controllable")
    {
      if ClearsController(reason) {
        reg.ClearControllerPeer(s, p);
      }
      return Refused(reason);
    }

    /** A renewal of the cached grant. Renewing anything else is refused without asking the control plane. */
    method HandleControlRenew(p: Peer, token: DeviceId, s: SessionId, v: int, rpc: Rpc) returns (reply: Reply)
      requires Valid() && Ready(p, token)
      modifies this`run, reg, table
      ensures Valid() && Moved(old(run), run, p, if reply.CloseConnection? then Closing else Serving)
      ensures Clock() == old(Clock()) || (rpc.Reached? && Clock() == rpc.at)
      ensures if s == "" || v <= 0 then reply == Refused("invalid_request") && reg.Contents() == old(reg.Contents())
              else if !old(Holding(p, s, v)) then
                reply == Refused("stale_lease") && reg.Contents() == old(reg.Contents())
              else if rpc.Broken? then reply == CloseConnection && reg.Contents() == old(reg.Contents())
              else if rpc.DeniedWith? then
                reply == Refused(rpc.reason)
                && reg.Contents() == AfterRefusal(old(reg.Contents()), s, p, Some(rpc.reason))
              else if rpc.at < old(table.rows)[s].expiresAt then
                && reply == Granted(NextGrant(v, rpc.at, ttl))
                && reg.Contents() == SetController(old(reg.Contents()), s, p, reply.grant, token)
                && table.rows == Extended(old(table.rows), s, rpc.at, ttl)
              else
                reply == Refused("stale_lease") && reg.Contents() == ClearController(old(reg.Contents()), s, p)
      ensures !reply.Granted? ==> table.rows == old(table.rows)
      ensures old(Holding(p, s, v)) && v > 0 && s != "" && rpc.DeniedWith? ==>
                (s !in reg.controllers <==> rpc.reason == "stale_lease" || rpc.reason == "unauthorized"
                                            || rpc.reason == "not_found" || rpc.reason == "session_not_controllable")
    {
      Still(run, p);
      if s == "" || v <= 0 {
        return Refused("invalid_request");
      }
      if s !in reg.controllers || reg.controllers[s].peer != p || reg.controllers[s].version != v {
        return Refused("stale_lease");
      }
      CachedForItsDevice(run, s);
      reply := RenewHeld(p, token, s, v, rpc);
    }

    /** A renewal of the cached grant itself. */
    method RenewHeld(p: Peer, token: DeviceId, s: SessionId, v: int, rpc: Rpc) returns (reply: Reply)
      requires Valid() && Ready(p, token) && v > 0 && Holding(p, s, v) && reg.controllers[s].token == token
      modifies this`run, reg, table
      ensures Valid() && Moved(old(run), run, p, if reply.CloseConnection? then Closing else Serving)
      ensures Clock() == old(Clock()) || (rpc.Reached? && Clock() == rpc.at)
      ensures if rpc.Broken? then reply == CloseConnection && reg.Contents() == old(reg.Contents())
              else if rpc.DeniedWith? then
                reply == Refused(rpc.reason)
                && reg.Contents() == AfterRefusal(old(reg.Contents()), s, p, Some(rpc.reason))
              else if rpc.at < old(table.rows)[s].expiresAt then
                && reply == Granted(NextGrant(v, rpc.at, ttl))
                && reg.Contents() == SetController(old(reg.Contents()), s, p, reply.grant, token)
                && table.rows == Extended(old(table.rows), s, rpc.at, ttl)
              else
                reply == Refused("stale_lease") && reg.Contents() == ClearController(old(reg.Contents()), s, p)
      ensures !reply.Granted? ==> table.rows == old(table.rows)
    {
      if rpc.Reached? {
        reply := CallRenew(p, token, s, v, rpc.at);
      } else {
        reply := RefuseRenew(p, token, s, v, if rpc.DeniedWith? then Some(rpc.reason) else None);
      }
    }

    /** A renewal that is denied, or whose call breaks. */
    method RefuseRenew(p: Peer, token: DeviceId, s: SessionId, v: int, denied: Option<string>) returns (reply: Reply)
      requires Valid() && Ready(p, token) && v > 0 && Holding(p, s, v)
      modifies this`run, reg
      ensures Valid() && Moved(old(run), run, p, if denied.Some? then Serving else Closing)
      ensures Clock() == old(Clock())
      ensures reply == if denied.Some? then Refused(denied.value) else CloseConnection
      ensures reg.Contents() == AfterRefusal(old(reg.Contents()), s, p, denied)
    {
      run := RenewRefusedRun(run, p, token, s, v, denied);
      if denied.None? {
        return CloseConnection;
      }
      reply := WriteDenied(p, s, denied.value);
    }

    /** The call of a renewal whose checks have passed, from the statement to the caching of its grant. */
    method CallRenew(p: Peer, token: DeviceId, s: SessionId, v: int, at: int) returns (reply: Reply)
      requires Valid() && Ready(p, token) && v > 0 && Holding(p, s, v) && reg.controllers[s].token == token
      modifies this`run, reg, table
      ensures Valid() && Moved(old(run), run, p, Serving)
      ensures Clock() == old(Clock()) || Clock() == at
      ensures if at < old(table.rows)[s].expiresAt then
                && reply == Granted(NextGrant(v, at, ttl))
                && reg.Contents() == SetController(old(reg.Contents()), s, p, reply.grant, token)
                && table.rows == Extended(old(table.rows), s, at, ttl)
              else
                && reply == Refused("stale_lease") && reg.Contents() == ClearController(old(reg.Contents()), s, p)
                && table.rows == old(table.rows)
    {
      ghost var before := run;
      assert at + StateOf(before).ttl == at + ttl;
      var lease := table.RenewControlLease(s, token, v, at, at + ttl);
      if lease.None? {
        reply := RefuseRenew(p, token, s, v, Some("stale_lease"));
        return;
      }
      run := RenewGrantedRun(before, p, token, s, v, at);
      GrantKeepsAgreement(reg.controllers, StateOf(before).rows, p, Renew(s, token, v, at, at + ttl));
      var grant := GrantOf(lease.value);
      reg.SetControllerPeer(s, p, grant, token);
      return Granted(grant);
    }

    /** A release of the cached grant: the row goes first, then the cache entry. */
    method HandleControlRelease(p: Peer, token: DeviceId, s: SessionId, v: int, rpc: Rpc) returns (reply: Reply)
      requires Valid() && Ready(p, token)
      modifies this`run, reg, table
      ensures Valid() && Moved(old(run), run, p, if reply.CloseConnection? then Closing else Serving)
      ensures Clock() == old(Clock())
      ensures if s == "" || v <= 0 then reply == Refused("invalid_request") && reg.Contents() == old(reg.Contents())
              else if !old(Holding(p, s, v)) then
                reply == Refused("stale_lease") && reg.Contents() == old(reg.Contents())
              else if rpc.Broken? then reply == CloseConnection && reg.Contents() == old(reg.Contents())
              else if rpc.DeniedWith? then
                reply == Refused(rpc.reason)
                && reg.Contents() == AfterRefusal(old(reg.Contents()), s, p, Some(rpc.reason))
              else
                && reply == Revoked(v) && table.rows == old(table.rows) - {s}
                && reg.Contents() == ClearController(old(reg.Contents()), s, p)
      ensures !reply.Revoked? ==> table.rows == old(table.rows)
      ensures old(Holding(p, s, v)) && v > 0 && s != "" && rpc.DeniedWith? ==>
                (s !in reg.controllers <==> rpc.reason == "stale_lease" || rpc.reason == "unauthorized"
                                            || rpc.reason == "not_found" || rpc.reason == "session_not_controllable")
    {
      Still(run, p);
      if s == "" || v <= 0 {
        return Refused("invalid_request");
      }
      if s !in reg.controllers || reg.controllers[s].peer != p || reg.controllers[s].version != v {
        return Refused("stale_lease");
      }
      ghost var before := run;
      CachedForItsDevice(before, s);
      match rpc {
        case Broken =>
          run := ReleaseRefusedRun(before, p, token, s, v, None);
          return CloseConnection;
        case DeniedWith(reason) =>
          run := ReleaseRefusedRun(before, p, token, s, v, Some(reason));
          reply := WriteDenied(p, s, reason);
        case Reached(_) =>
          run := ReleasedRun(before, p, token, s, v);
          var lease := table.ReleaseControlLease(s, token, v);
          reg.ClearControllerPeer(s, p);
          reply := Revoked(v);
      }
    }

    /** Input is forwarded exactly from the cached controller, up to its cached expiry, in the raw encoding,
        at the cached version if the frame names one, and to a daemon that is online; and then the sender's
        device holds the row. A grant found expired is dropped. `decided` is the point of the run at which a
        frame of the cached controller is decided on. */
    method ForwardInput(sender: Peer, token: DeviceId, s: SessionId, now: int, raw: bool, hv: int)
      returns (forwarded: bool, ghost decided: Run)
      requires Valid() && Ready(sender, token) && now >= Clock()
      modifies this`run, reg
      ensures Valid() && Moved(old(run), run, sender, Serving)
      ensures Clock() == old(Clock()) || Clock() == now
      ensures forwarded <==>
                && s in old(reg.controllers) && old(reg.controllers)[s].peer == sender
                && now <= old(reg.controllers)[s].expiresAt
                && raw && (hv == 0 || hv == old(reg.controllers)[s].version)
                && s in old(reg.daemons)
      ensures forwarded ==>
                && RelaySafety.Backed(table.rows, token, s, old(reg.controllers)[s].version, now)
                && s in table.rows && table.rows[s].device == token
                && table.rows[s].version == old(reg.controllers)[s].version && now <= table.rows[s].expiresAt
                && Legal(decided) && RelaySafety.UndividedRun(decided)
                && decided.Then? && decided.step == InputBegin(sender, s)
                && Forwards(StateOf(decided), InputDecide(sender, raw, hv))
      ensures reg.Contents() ==
                if s in old(reg.controllers) && old(reg.controllers)[s].peer == sender
                   && now > old(reg.controllers)[s].expiresAt
                then ClearController(old(reg.Contents()), s, sender) else old(reg.Contents())
    {
      Still(run, sender);
      decided := run;
      if s !in reg.controllers || reg.controllers[s].peer != sender {
        return false, decided;
      }
      CachedForItsDevice(run, s);
      var state := reg.controllers[s];
      run, decided := InputRun(run, sender, token, s, now, raw, hv);
      if now > state.expiresAt {
        reg.ClearControllerPeer(s, state.peer);
        return false, decided;
      }
      if !raw {
        return false, decided;
      }
      if hv != 0 && hv != state.version {
        return false, decided;
      }
      if s !in reg.daemons {
        return false, decided;
      }
      return true, decided;
    }

    /** One release for each grant a departed peer held, as far as they get through. */
    method ReleaseAll(released: seq<Entry>, reaches: SessionId -> bool)
      requires AllBacked(table.rows, released)
      modifies table
      ensures table.rows == WithoutReleased(old(table.rows), released, reaches)
    {
      ghost var rows := table.rows;
      var i := 0;
      while i < |released|
        invariant 0 <= i <= |released|
        invariant table.rows == WithoutReleased(rows, released[..i], reaches)
      {
        var e := released[i];
        OneMoreReleased(rows, released[..i], e, reaches);
        assert released[..i + 1] == released[..i] + [e];
        if reaches(e.session) {
          var ignored := table.ReleaseControlLease(e.session, e.token, e.version);
        }
        i := i + 1;
      }
      assert released[..|released|] == released;
    }

    /** The cleanup when a connection ends: out of the registry, then a release for each grant it held.
        The rows that go are exactly those the peer was cached for whose release gets through. */
    method Disconnect(p: Peer, reaches: SessionId -> bool)
      requires Valid() && At(StateOf(run), p) && PcOf(StateOf(run), p) in [Serving, Closing]
      modifies this`run, reg, table
      ensures Valid() && StateOf(run).peers == StateOf(old(run)).peers - {p}
      ensures reg.Contents() == RemovePeer(old(reg.Contents()), p)
      ensures table.rows == map s | s in old(table.rows)
                && !(s in old(reg.controllers) && old(reg.controllers)[s].peer == p && reaches(s)) :: old(table.rows)[s]
    {
      ghost var cached := reg.controllers;
      var released := reg.RemovePeerEntries(p);
      ReleasedAre(cached, p, released);
      run := DisconnectRun(run, p, released, reaches);
      ReleaseAll(released, reaches);
    }
  }

  /** Caching a grant at once with the statement keeps cache and table in agreement. */
  lemma GrantKeepsAgreement(controllers: map<SessionId, Entry>, rows: Rows, p: Peer, st: Statement)
    requires Agreement(controllers, rows) && (st.Upsert? || st.Renew?) && Execute(rows, st).returned.Some?
    ensures var out := Execute(rows, st); var g := GrantOf(out.returned.value);
            Agreement(controllers[st.session := Entry(p, st.session, g.version, g.expiresAt, st.device)], out.rows)
  {
  }

  lemma Still(run: Run, p: Peer)
    requires Legal(run) && At(StateOf(run), p)
    ensures Moved(run, run, p, PcOf(StateOf(run), p))
  {
    var peers := StateOf(run).peers;
    assert peers == peers[p := Conn(peers[p].device, peers[p].pc)];
  }

  /** A cached grant carries the token of its peer's device. */
  lemma CachedForItsDevice(run: Run, s: SessionId)
    requires Legal(run) && s in StateOf(run).reg.controllers
    ensures var r := StateOf(run); var e := r.reg.controllers[s]; At(r, e.peer) && e.token == r.peers[e.peer].device
  {
    EveryRunIsCoherent(run);
  }

  /** One of the released grants was for session `s`. */
  ghost predicate IsReleased(released: seq<Entry>, s: SessionId) {
    exists e :: e in released && e.session == s
  }

  ghost function WithoutReleased(rows: Rows, released: seq<Entry>, reaches: SessionId -> bool): Rows {
    map s | s in rows && !(IsReleased(released, s) && reaches(s)) :: rows[s]
  }

  lemma OneMoreReleased(rows: Rows, done: seq<Entry>, e: Entry, reaches: SessionId -> bool)
    requires RelaySafety.EntryBacked(rows, e) && forall d | d in done :: d.session != e.session
    ensures var before, after := WithoutReleased(rows, done, reaches), WithoutReleased(rows, done + [e], reaches);
            RelaySafety.EntryBacked(before, e) && after == if reaches(e.session) then before - {e.session} else before
  {
    forall s
      ensures IsReleased(done + [e], s) <==> IsReleased(done, s) || s == e.session
    {
      assert e in done + [e];
      assert forall d | d in done :: d in done + [e];
    }
  }

  /** Each of the grants is the row of its session, and no two are for one session. */
  ghost predicate AllBacked(rows: Rows, released: seq<Entry>) {
    && (forall e | e in released :: RelaySafety.EntryBacked(rows, e))
    && (forall i, j | 0 <= i < j < |released| :: released[i].session != released[j].session)
  }

  /** Out of the registry, and the first `n` releases sent. */
  lemma {:induction false} DrainedRun(from: Run, p: Peer, released: seq<Entry>, reaches: SessionId -> bool, n: nat)
    returns (run: Run)
    requires Settled(from) && At(StateOf(from), p) && PcOf(StateOf(from), p) in [Serving, Closing]
    requires IsReleaseList(StateOf(from).reg.controllers, p, released)
    requires AllBacked(StateOf(from).rows, released) && n <= |released|
    ensures Ends(from, run, p, WithoutReleased(StateOf(from).rows, released[..n], reaches),
                 RemovePeer(StateOf(from).reg, p), Draining(released[n..]))
    decreases n
  {
    var rows := StateOf(from).rows;
    if n == 0 {
      assert released[0..] == released;
      run := RemoveRun(from, p, released);
    } else {
      var before := DrainedRun(from, p, released, reaches, n - 1);
      run := DrainRun(from, before, p, released[n - 1..], reaches(released[n - 1].session));
      DrainedOneMore(rows, released, reaches, n - 1);
    }
  }

  lemma DrainedOneMore(rows: Rows, released: seq<Entry>, reaches: SessionId -> bool, n: nat)
    requires AllBacked(rows, released) && n < |released|
    ensures released[n..][0] == released[n] && released[n..][1..] == released[n + 1..]
    ensures var before := WithoutReleased(rows, released[..n], reaches);
            WithoutReleased(rows, released[..n + 1], reaches)
            == if reaches(released[n].session) then Execute(before, DrainStatement(released[n])).rows else before
  {
    OneMoreReleased(rows, released[..n], released[n], reaches);
    assert released[..n + 1] == released[..n] + [released[n]];
  }

  lemma DisconnectRun(from: Run, p: Peer, released: seq<Entry>, reaches: SessionId -> bool) returns (run: Run)
    requires Settled(from) && At(StateOf(from), p) && PcOf(StateOf(from), p) in [Serving, Closing]
    requires IsReleaseList(StateOf(from).reg.controllers, p, released)
    requires AllBacked(StateOf(from).rows, released)
    ensures Settled(run) && StateOf(run).ttl == StateOf(from).ttl
    ensures StateOf(run).rows == WithoutReleased(StateOf(from).rows, released, reaches)
    ensures StateOf(run).reg == RemovePeer(StateOf(from).reg, p)
    ensures StateOf(run).peers == StateOf(from).peers - {p}
  {
    run := DrainedRun(from, p, released, reaches, |released|);
    assert released[..|released|] == released && released[|released|..] == [];
    run := ExitRun(run, p);
  }

  lemma ReleasedAre(controllers: map<SessionId, Entry>, p: Peer, released: seq<Entry>)
    requires IsReleaseList(controllers, p, released) && forall s | s in controllers :: controllers[s].session == s
    ensures forall s :: IsReleased(released, s) <==> s in controllers && controllers[s].peer == p
    ensures forall i, j | 0 <= i < j < |released| :: released[i].session != released[j].session
  {
    forall s
      ensures IsReleased(released, s) <==> s in controllers && controllers[s].peer == p
    {
      if s in controllers && controllers[s].peer == p {
        assert controllers[s] in released;
      }
    }
    forall i, j | 0 <= i < j < |released|
      ensures released[i].session != released[j].session
    {
      assert released[i] in released && released[j] in released;
    }
  }
}
