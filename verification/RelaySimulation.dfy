/**
  A handler that runs without interruption is a run of the transition system: each lemma strings the steps
  of one outcome of one handler together and says where they lead.
 */
module RelaySimulation {
  import opened Base
  import opened LeaseTable
  import opened Registry
  import opened RelayProtocol
  import opened RelaySafety

  /** Nobody but `p` is between a grant and its caching, and nobody ever was when another connection took a
      step. */
  ghost predicate Quiet(run: Run, p: Peer) {
    && Legal(run) && UndividedRun(run)
    && forall q | At(StateOf(run), q) && q != p :: !InWindow(PcOf(StateOf(run), q))
  }

  /** The same with nobody at all. */
  ghost predicate Settled(run: Run) {
    && Legal(run) && UndividedRun(run)
    && forall q | At(StateOf(run), q) :: !InWindow(PcOf(StateOf(run), q))
  }

  ghost predicate Serves(r: Relay, p: Peer, d: DeviceId) {
    At(r, p) && r.peers[p] == Conn(d, Serving)
  }

  /** Since `from` only connection `p` has moved, and it is now at `pc`. */
  ghost predicate Moved(from: Run, run: Run, p: Peer, pc: Pc) {
    && Legal(from) && Legal(run) && At(StateOf(from), p)
    && StateOf(run).ttl == StateOf(from).ttl && StateOf(run).now >= StateOf(from).now
    && StateOf(run).peers == StateOf(from).peers[p := Conn(StateOf(from).peers[p].device, pc)]
  }

  /** The outcome of a handler: table and registry afterwards, and where it leaves its connection. */
  ghost predicate Ends(from: Run, run: Run, p: Peer, rows: Rows, reg: Reg, pc: Pc) {
    Settled(run) && Moved(from, run, p, pc) && StateOf(run).rows == rows && StateOf(run).reg == reg
  }

  /** One step of `p` while everybody else is quiet; every grant is answered. */
  lemma Advance(from: Run, run: Run, p: Peer, pc: Pc, st: Step) returns (run': Run)
    requires Quiet(run, p) && Moved(from, run, p, pc)
    requires Enabled(StateOf(run), st) && !st.Tick? && !st.Connect? && !st.Exit? && st.p == p
    requires (st.AcquireRpc? ==> st.replied) && (st.RenewRpc? ==> st.replied)
    ensures Quiet(run', p) && run' == Then(run, st)
    ensures Moved(from, run', p, PcAfter(StateOf(run), st))
    ensures StateOf(run').rows == RowsAfter(StateOf(run), st) && StateOf(run').reg == RegAfter(StateOf(run), st)
    ensures StateOf(run').now == StateOf(run).now
  {
    run' := Then(run, st);
    var r, r' := StateOf(run), Apply(StateOf(run), st);
    forall q | At(r', q) && q != p
      ensures !InWindow(PcOf(r', q))
    {
      OthersStayPut(r, st, q);
    }
    assert r'.peers == r.peers[p := Conn(r.peers[p].device, PcAfter(r, st))];
  }

  function Latest(a: int, b: int): int {
    if a >= b then a else b
  }

  /** Time passes while everybody is quiet, at least until `at`. */
  lemma Wait(from: Run, p: Peer, at: int) returns (run: Run)
    requires Settled(from) && At(StateOf(from), p)
    ensures Settled(run) && Quiet(run, p) && Moved(from, run, p, PcOf(StateOf(from), p))
    ensures StateOf(run) == StateOf(from).(now := Latest(StateOf(from).now, at))
  {
    var st := Tick(Latest(StateOf(from).now, at));
    run := Then(from, st);
    forall q | At(StateOf(run), q)
      ensures At(StateOf(from), q) && !InWindow(PcOf(StateOf(run), q))
    {
      OthersStayPut(StateOf(from), st, q);
    }
    assert StateOf(run).peers == StateOf(from).peers;
  }

  /** The checks of an acquire have passed, and the call is about to be made, no earlier than `at`. */
  lemma AcquireCheckedRun(from: Run, p: Peer, d: DeviceId, s: SessionId, at: int) returns (run: Run)
    requires Settled(from) && Serves(StateOf(from), p, d)
    requires IsWatching(StateOf(from).reg, s, p) && s in StateOf(from).reg.daemons
    ensures Ends(from, run, p, StateOf(from).rows, StateOf(from).reg, AcquireChecked(s))
    ensures StateOf(run).now == Latest(StateOf(from).now, at)
  {
    run := Wait(from, p, at);
    run := Advance(from, run, p, Serving, AcquireBegin(p, s));
  }

  /** The call of an acquire is answered with a grant, which is not yet cached. */
  lemma AcquireAnsweredRun(from: Run, p: Peer, d: DeviceId, s: SessionId, at: int) returns (run: Run)
    requires Settled(from) && Serves(StateOf(from), p, d)
    requires IsWatching(StateOf(from).reg, s, p) && s in StateOf(from).reg.daemons
    requires Execute(StateOf(from).rows, Upsert(s, d, at, at + StateOf(from).ttl)).returned.Some?
    ensures var out := Execute(StateOf(from).rows, Upsert(s, d, at, at + StateOf(from).ttl));
            && Quiet(run, p) && Moved(from, run, p, AcquireGranted(s, GrantOf(out.returned.value)))
            && StateOf(run).rows == out.rows && StateOf(run).reg == StateOf(from).reg
    ensures StateOf(run).now == Latest(StateOf(from).now, at)
  {
    run := AcquireCheckedRun(from, p, d, s, at);
    assert AcquireStatement(StateOf(run), p, s, at) == Upsert(s, d, at, at + StateOf(from).ttl);
    run := Advance(from, run, p, AcquireChecked(s), AcquireRpc(p, at, true));
  }

  lemma AcquireGrantedRun(from: Run, p: Peer, d: DeviceId, s: SessionId, at: int) returns (run: Run)
    requires Settled(from) && Serves(StateOf(from), p, d)
    requires IsWatching(StateOf(from).reg, s, p) && s in StateOf(from).reg.daemons
    requires Execute(StateOf(from).rows, Upsert(s, d, at, at + StateOf(from).ttl)).returned.Some?
    ensures var r := StateOf(from); var out := Execute(r.rows, Upsert(s, d, at, at + r.ttl));
            Ends(from, run, p, out.rows, SetController(r.reg, s, p, GrantOf(out.returned.value), d), Serving)
    ensures StateOf(run).now == Latest(StateOf(from).now, at)
  {
    run := AcquireAnsweredRun(from, p, d, s, at);
    var grant := GrantOf(Execute(StateOf(from).rows, Upsert(s, d, at, at + StateOf(from).ttl)).returned.value);
    run := Advance(from, run, p, AcquireGranted(s, grant), AcquireInstall(p));
  }

  /** A denied acquire changes nothing, whatever the reason; one whose call breaks ends the message loop. */
  lemma AcquireRefusedRun(from: Run, p: Peer, d: DeviceId, s: SessionId, denied: Option<string>) returns (run: Run)
    requires Settled(from) && Serves(StateOf(from), p, d)
    requires IsWatching(StateOf(from).reg, s, p) && s in StateOf(from).reg.daemons
    ensures Ends(from, run, p, StateOf(from).rows, StateOf(from).reg, if denied.Some? then Serving else Closing)
    ensures StateOf(run).now == StateOf(from).now
  {
    run := AcquireCheckedRun(from, p, d, s, StateOf(from).now);
    run := Advance(from, run, p, AcquireChecked(s), if denied.Some? then Denied(p, denied.value) else Fail(p));
  }

  lemma RenewCheckedRun(from: Run, p: Peer, d: DeviceId, s: SessionId, v: int, at: int) returns (run: Run)
    requires Settled(from) && Serves(StateOf(from), p, d) && v > 0 && Holds(StateOf(from), p, s, v)
    ensures Ends(from, run, p, StateOf(from).rows, StateOf(from).reg,
                 RenewChecked(s, StateOf(from).reg.controllers[s]))
    ensures StateOf(run).now == Latest(StateOf(from).now, at)
  {
    run := Wait(from, p, at);
    run := Advance(from, run, p, Serving, RenewBegin(p, s, v));
  }

  lemma RenewGrantedRun(from: Run, p: Peer, d: DeviceId, s: SessionId, v: int, at: int) returns (run: Run)
    requires Settled(from) && Serves(StateOf(from), p, d) && v > 0 && Holds(StateOf(from), p, s, v)
    requires Execute(StateOf(from).rows, Renew(s, d, v, at, at + StateOf(from).ttl)).returned.Some?
    ensures var r := StateOf(from); var out := Execute(r.rows, Renew(s, d, v, at, at + r.ttl));
            Ends(from, run, p, out.rows, SetController(r.reg, s, p, GrantOf(out.returned.value), d), Serving)
    ensures StateOf(run).now == Latest(StateOf(from).now, at)
  {
    var seen := StateOf(from).reg.controllers[s];
    run := RenewCheckedRun(from, p, d, s, v, at);
    var grant := GrantOf(Execute(StateOf(from).rows, Renew(s, d, v, at, at + StateOf(from).ttl)).returned.value);
    run := Advance(from, run, p, RenewChecked(s, seen), RenewRpc(p, at, true));
    run := Advance(from, run, p, RenewGranted(s, grant), RenewInstall(p));
  }

  /** What a refused renewal or release makes of the registry: for four reasons, and for no other, the grant cached
      for `p` goes; everything else stays. */
  function AfterRefusal(r: Reg, s: SessionId, p: Peer, denied: Option<string>): (r': Reg)
    ensures (s in r'.controllers && r'.controllers[s].peer == p)
            <==> (s in r.controllers && r.controllers[s].peer == p
                  && denied != Some("stale_lease") && denied != Some("unauthorized") && denied != Some("not_found")
                  && denied != Some("session_not_controllable"))
    ensures forall x | x in r.controllers && (x != s || r.controllers[x].peer != p) ::
              x in r'.controllers && r'.controllers[x] == r.controllers[x]
    ensures forall x | x in r'.controllers :: x in r.controllers && r'.controllers[x] == r.controllers[x]
    ensures r'.daemons == r.daemons && r'.watchers == r.watchers && r'.watching == r.watching
  {
    if denied.Some? && ClearsController(denied.value) then ClearController(r, s, p) else r
  }

  lemma RefusedRun(from: Run, checked: Run, p: Peer, s: SessionId, seen: Entry, denied: Option<string>)
    returns (run: Run)
    requires Quiet(checked, p) && At(StateOf(checked), p)
    requires PcOf(StateOf(checked), p) in [RenewChecked(s, seen), ReleaseChecked(s, seen)]
    requires Moved(from, checked, p, PcOf(StateOf(checked), p))
    ensures Ends(from, run, p, StateOf(checked).rows, AfterRefusal(StateOf(checked).reg, s, p, denied),
                 if denied.Some? then Serving else Closing)
    ensures StateOf(run).now == StateOf(checked).now
  {
    var pc := PcOf(StateOf(checked), p);
    run := Advance(from, checked, p, pc, if denied.Some? then Denied(p, denied.value) else Fail(p));
    if denied.Some? && ClearsController(denied.value) {
      run := Advance(from, run, p, Clearing(s, seen, false), Clear(p));
    }
  }

  lemma RenewRefusedRun(from: Run, p: Peer, d: DeviceId, s: SessionId, v: int, denied: Option<string>)
    returns (run: Run)
    requires Settled(from) && Serves(StateOf(from), p, d) && v > 0 && Holds(StateOf(from), p, s, v)
    ensures Ends(from, run, p, StateOf(from).rows, AfterRefusal(StateOf(from).reg, s, p, denied),
                 if denied.Some? then Serving else Closing)
    ensures StateOf(run).now == StateOf(from).now
  {
    run := RenewCheckedRun(from, p, d, s, v, StateOf(from).now);
    run := RefusedRun(from, run, p, s, StateOf(from).reg.controllers[s], denied);
  }

  lemma ReleaseRefusedRun(from: Run, p: Peer, d: DeviceId, s: SessionId, v: int, denied: Option<string>)
    returns (run: Run)
    requires Settled(from) && Serves(StateOf(from), p, d) && v > 0 && Holds(StateOf(from), p, s, v)
    ensures Ends(from, run, p, StateOf(from).rows, AfterRefusal(StateOf(from).reg, s, p, denied),
                 if denied.Some? then Serving else Closing)
    ensures StateOf(run).now == StateOf(from).now
  {
    run := Wait(from, p, StateOf(from).now);
    run := Advance(from, run, p, Serving, ReleaseBegin(p, s, v));
    run := RefusedRun(from, run, p, s, StateOf(from).reg.controllers[s], denied);
  }

  lemma ReleasedRun(from: Run, p: Peer, d: DeviceId, s: SessionId, v: int) returns (run: Run)
    requires Settled(from) && Serves(StateOf(from), p, d) && v > 0 && Holds(StateOf(from), p, s, v)
    requires Execute(StateOf(from).rows, Release(s, d, v)).returned.Some?
    ensures Ends(from, run, p, StateOf(from).rows - {s}, ClearController(StateOf(from).reg, s, p), Serving)
    ensures StateOf(run).now == StateOf(from).now
  {
    var seen := StateOf(from).reg.controllers[s];
    run := Wait(from, p, StateOf(from).now);
    run := Advance(from, run, p, Serving, ReleaseBegin(p, s, v));
    run := Advance(from, run, p, ReleaseChecked(s, seen), ReleaseRpc(p, true));
    run := Advance(from, run, p, Clearing(s, seen, true), Clear(p));
  }

  /** Input read from the cached controller and decided at `now`; the step before last decides. */
  lemma InputRun(from: Run, p: Peer, d: DeviceId, s: SessionId, now: int, raw: bool, hv: int)
    returns (run: Run, decided: Run)
    requires Settled(from) && Serves(StateOf(from), p, d) && now >= StateOf(from).now
    requires s in StateOf(from).reg.controllers && StateOf(from).reg.controllers[s].peer == p
    ensures var r := StateOf(from); var expired := now > r.reg.controllers[s].expiresAt;
            Ends(from, run, p, r.rows, if expired then ClearController(r.reg, s, p) else r.reg, Serving)
    ensures Legal(decided) && UndividedRun(decided) && StateOf(decided).now == now == StateOf(run).now
    ensures decided.Then? && decided.step == InputBegin(p, s)
    ensures StateOf(decided).rows == StateOf(from).rows && StateOf(decided).reg == StateOf(from).reg
    ensures At(StateOf(decided), p)
            && StateOf(decided).peers[p] == Conn(d, InputSeen(s, StateOf(from).reg.controllers[s]))
  {
    var seen := StateOf(from).reg.controllers[s];
    run := Wait(from, p, now);
    decided := Advance(from, run, p, Serving, InputBegin(p, s));
    run := Advance(from, decided, p, InputSeen(s, seen), InputDecide(p, raw, hv));
    if now > seen.expiresAt {
      run := Advance(from, run, p, Clearing(s, seen, false), Clear(p));
    }
  }

  lemma WatchRun(from: Run, p: Peer, d: DeviceId, s: SessionId) returns (run: Run)
    requires Settled(from) && Serves(StateOf(from), p, d) && s in StateOf(from).reg.daemons
    ensures Ends(from, run, p, StateOf(from).rows, AddWatcher(StateOf(from).reg, s, p), Serving)
  {
    run := Wait(from, p, StateOf(from).now);
    run := Advance(from, run, p, Serving, WatchBegin(p, s));
    run := Advance(from, run, p, WatchAuthorized(s), WatchEnd(p));
  }

  lemma SessionOnlineRun(from: Run, p: Peer, d: DeviceId, s: SessionId) returns (run: Run)
    requires Settled(from) && Serves(StateOf(from), p, d)
    ensures Ends(from, run, p, StateOf(from).rows, SetDaemon(StateOf(from).reg, s, p), Serving)
  {
    run := Wait(from, p, StateOf(from).now);
    run := Advance(from, run, p, Serving, SessionOnline(p, s));
  }

  lemma ConnectRun(from: Run, p: Peer, d: DeviceId) returns (run: Run)
    requires Settled(from) && !At(StateOf(from), p)
    ensures Settled(run)
    ensures StateOf(run) == StateOf(from).(peers := StateOf(from).peers[p := Conn(d, Serving)])
  {
    run := Then(from, Connect(p, d));
    forall q | At(StateOf(run), q) && q != p
      ensures !InWindow(PcOf(StateOf(run), q))
    {
      OthersStayPut(StateOf(from), Connect(p, d), q);
    }
  }

  /** The message loop ends, unless it has ended already. */
  lemma LeaveLoopRun(from: Run, p: Peer) returns (run: Run)
    requires Settled(from) && At(StateOf(from), p) && PcOf(StateOf(from), p) in [Serving, Closing]
    ensures Ends(from, run, p, StateOf(from).rows, StateOf(from).reg, Closing)
  {
    run := Wait(from, p, StateOf(from).now);
    if PcOf(StateOf(from), p).Serving? {
      run := Advance(from, run, p, Serving, Fail(p));
    }
  }

  lemma RemoveRun(from: Run, p: Peer, released: seq<Entry>) returns (run: Run)
    requires Settled(from) && At(StateOf(from), p) && PcOf(StateOf(from), p) in [Serving, Closing]
    requires IsReleaseList(StateOf(from).reg.controllers, p, released)
    ensures Ends(from, run, p, StateOf(from).rows, RemovePeer(StateOf(from).reg, p), Draining(released))
  {
    run := LeaveLoopRun(from, p);
    run := Advance(from, run, p, Closing, Remove(p, released));
  }

  lemma DrainRun(from: Run, before: Run, p: Peer, todo: seq<Entry>, effective: bool) returns (run: Run)
    requires Settled(before) && Moved(from, before, p, Draining(todo)) && todo != []
    ensures var r := StateOf(before);
            var rows := if effective then Execute(r.rows, DrainStatement(todo[0])).rows else r.rows;
            Ends(from, run, p, rows, r.reg, Draining(todo[1..]))
  {
    run := Advance(from, before, p, Draining(todo), Drain(p, effective));
  }

  lemma ExitRun(from: Run, p: Peer) returns (run: Run)
    requires Settled(from) && At(StateOf(from), p) && PcOf(StateOf(from), p) == Draining([])
    ensures Settled(run) && StateOf(run) == StateOf(from).(peers := StateOf(from).peers - {p})
  {
    run := Then(from, Exit(p));
    forall q | At(StateOf(run), q)
      ensures !InWindow(PcOf(StateOf(run), q))
    {
      OthersStayPut(StateOf(from), Exit(p), q);
    }
  }
}
