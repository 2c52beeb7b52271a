/**
  The relay as a transition system. Every connection is a sequential process: it handles one message
  at a time, and between two of its steps any other connection may take any number of steps. A step is
  one critical section of the registry, one statement of the lease table, or one read of the clock.
 */
module RelayProtocol {
  import opened Base
  import opened LeaseTable
  import opened Registry

  /** Where a connection is in its message loop, with what its handler has read so far. */
  datatype Pc =
    | Serving                                                    // waiting for the next message
    | WatchAuthorized(session: SessionId)                        // allowed to watch, not yet a watcher
    | AcquireChecked(session: SessionId)                         // checks passed, about to call control
    | AcquireGranted(session: SessionId, grant: Grant)           // granted, not yet cached
    | RenewChecked(session: SessionId, seen: Entry)
    | RenewGranted(session: SessionId, grant: Grant)
    | ReleaseChecked(session: SessionId, seen: Entry)
    | Clearing(session: SessionId, seen: Entry, released: bool)  // about to drop its cached grant
    | InputSeen(session: SessionId, seen: Entry)                 // cached grant read, clock not yet read
    | Closing                                                    // loop left, cleanup not yet begun
    | Draining(todo: seq<Entry>)                                 // out of the registry, releasing leases

  datatype Conn = Conn(device: DeviceId, pc: Pc)

  datatype Relay = Relay(ttl: int, now: int, rows: Rows, reg: Reg, peers: map<Peer, Conn>)

  function Init(ttl: int, now: int): Relay {
    Relay(ttl, now, map[], EMPTY, map[])
  }

  /** `at` is the reading of the control plane's clock, taken at any time before the statement runs;
      `replied` tells whether the answer reaches the relay; `hv` is the frame's lease_version, 0 if absent. */
  datatype Step =
    | Tick(to: int)
    | Connect(p: Peer, device: DeviceId)
    | SessionOnline(p: Peer, s: SessionId)
    | WatchBegin(p: Peer, s: SessionId)
    | WatchEnd(p: Peer)
    | AcquireBegin(p: Peer, s: SessionId)
    | AcquireRpc(p: Peer, at: int, replied: bool)
    | AcquireInstall(p: Peer)
    | RenewBegin(p: Peer, s: SessionId, v: int)
    | RenewRpc(p: Peer, at: int, replied: bool)
    | RenewInstall(p: Peer)
    | ReleaseBegin(p: Peer, s: SessionId, v: int)
    | ReleaseRpc(p: Peer, replied: bool)
    | Denied(p: Peer, reason: string)
    | Clear(p: Peer)
    | InputBegin(p: Peer, s: SessionId)
    | InputDecide(p: Peer, raw: bool, hv: int)
    | Fail(p: Peer)
    | Remove(p: Peer, todo: seq<Entry>)
    | Drain(p: Peer, effective: bool)
    | Exit(p: Peer)

  /** The denial reasons on which a renew or release drops the cached grant. */
  predicate ClearsController(reason: string) {
    reason == "stale_lease" || reason == "unauthorized" || reason == "not_found" || reason == "session_not_controllable"
  }

  predicate At(r: Relay, p: Peer) {
    p in r.peers
  }

  function PcOf(r: Relay, p: Peer): Pc
    requires At(r, p)
  {
    r.peers[p].pc
  }

  /** The cached grant of `s` belongs to `p` and carries version `v`. */
  predicate Holds(r: Relay, p: Peer, s: SessionId, v: int) {
    s in r.reg.controllers && r.reg.controllers[s].peer == p && r.reg.controllers[s].version == v
  }

  /** The statement a control call runs for connection `p`. */
  function AcquireStatement(r: Relay, p: Peer, s: SessionId, at: int): Statement
    requires At(r, p)
  {
    Upsert(s, r.peers[p].device, at, at + r.ttl)
  }

  function RenewStatement(r: Relay, p: Peer, s: SessionId, v: int, at: int): Statement
    requires At(r, p)
  {
    Renew(s, r.peers[p].device, v, at, at + r.ttl)
  }

  /** The grant as the relay receives it: the expiry travels in whole seconds. */
  function GrantOf(row: Lease): Grant {
    Grant(row.version, WholeSeconds(row.expiresAt))
  }

  ghost predicate Enabled(r: Relay, st: Step) {
    if st.Tick? then st.to >= r.now
    else if st.Connect? then !At(r, st.p)
    else At(r, st.p) && var pc := PcOf(r, st.p);
      match st
      case SessionOnline(p, s) => pc.Serving?
      case WatchBegin(p, s) => pc.Serving? && s in r.reg.daemons
      case WatchEnd(p) => pc.WatchAuthorized?
      case AcquireBegin(p, s) => pc.Serving? && IsWatching(r.reg, s, p) && s in r.reg.daemons
      case AcquireRpc(p, at, replied) =>
        pc.AcquireChecked? && at <= r.now && Execute(r.rows, AcquireStatement(r, p, pc.session, at)).returned.Some?
      case AcquireInstall(p) => pc.AcquireGranted?
      case RenewBegin(p, s, v) => pc.Serving? && v > 0 && Holds(r, p, s, v)
      case RenewRpc(p, at, replied) =>
        pc.RenewChecked? && at <= r.now
        && Execute(r.rows, RenewStatement(r, p, pc.session, pc.seen.version, at)).returned.Some?
      case RenewInstall(p) => pc.RenewGranted?
      case ReleaseBegin(p, s, v) => pc.Serving? && v > 0 && Holds(r, p, s, v)
      case ReleaseRpc(p, replied) =>
        pc.ReleaseChecked?
        && Execute(r.rows, Release(pc.session, r.peers[p].device, pc.seen.version)).returned.Some?
      case Denied(p, reason) => pc.AcquireChecked? || pc.RenewChecked? || pc.ReleaseChecked?
      case Clear(p) => pc.Clearing?
      case InputBegin(p, s) => pc.Serving? && s in r.reg.controllers && r.reg.controllers[s].peer == p
      case InputDecide(p, raw, hv) => pc.InputSeen?
      case Fail(p) => pc.Serving? || pc.AcquireChecked? || pc.RenewChecked? || pc.ReleaseChecked?
      case Remove(p, todo) => pc.Closing? && IsReleaseList(r.reg.controllers, p, todo)
      case Drain(p, effective) => pc.Draining? && pc.todo != []
      case Exit(p) => pc.Draining? && pc.todo == []
  }

  /** The release a disconnected peer sends for one of the grants it held. */
  function DrainStatement(e: Entry): Statement {
    Release(e.session, e.token, e.version)
  }

  /** The lease table after a step: four steps run a statement. */
  ghost function RowsAfter(r: Relay, st: Step): Rows
    requires Enabled(r, st)
  {
    match st
    case AcquireRpc(p, at, replied) => Execute(r.rows, AcquireStatement(r, p, PcOf(r, p).session, at)).rows
    case RenewRpc(p, at, replied) =>
      Execute(r.rows, RenewStatement(r, p, PcOf(r, p).session, PcOf(r, p).seen.version, at)).rows
    case ReleaseRpc(p, replied) =>
      Execute(r.rows, Release(PcOf(r, p).session, r.peers[p].device, PcOf(r, p).seen.version)).rows
    case Drain(p, effective) => if effective then Execute(r.rows, DrainStatement(PcOf(r, p).todo[0])).rows else r.rows
    case _ => r.rows
  }

  /** The registry after a step: six steps are critical sections that change it. */
  ghost function RegAfter(r: Relay, st: Step): Reg
    requires Enabled(r, st)
  {
    match st
    case SessionOnline(p, s) => SetDaemon(r.reg, s, p)
    case WatchEnd(p) => AddWatcher(r.reg, PcOf(r, p).session, p)
    case AcquireInstall(p) => SetController(r.reg, PcOf(r, p).session, p, PcOf(r, p).grant, r.peers[p].device)
    case RenewInstall(p) => SetController(r.reg, PcOf(r, p).session, p, PcOf(r, p).grant, r.peers[p].device)
    case Clear(p) => ClearController(r.reg, PcOf(r, p).session, p)
    case Remove(p, todo) => RemovePeer(r.reg, p)
    case _ => r.reg
  }

  /** Where the connection that takes the step goes next. */
  ghost function PcAfter(r: Relay, st: Step): Pc
    requires Enabled(r, st) && !st.Tick? && !st.Connect?
  {
    var pc := PcOf(r, st.p);
    match st
    case SessionOnline(p, s) => pc
    case WatchBegin(p, s) => WatchAuthorized(s)
    case AcquireBegin(p, s) => AcquireChecked(s)
    case AcquireRpc(p, at, replied) =>
      if replied then
        AcquireGranted(pc.session, GrantOf(Execute(r.rows, AcquireStatement(r, p, pc.session, at)).returned.value))
      else Closing
    case RenewBegin(p, s, v) => RenewChecked(s, r.reg.controllers[s])
    case RenewRpc(p, at, replied) =>
      if replied then
        RenewGranted(pc.session,
                     GrantOf(Execute(r.rows, RenewStatement(r, p, pc.session, pc.seen.version, at)).returned.value))
      else Closing
    case ReleaseBegin(p, s, v) => ReleaseChecked(s, r.reg.controllers[s])
    case ReleaseRpc(p, replied) => if replied then Clearing(pc.session, pc.seen, true) else Closing
    case Denied(p, reason) =>
      if !pc.AcquireChecked? && ClearsController(reason) then Clearing(pc.session, pc.seen, false) else Serving
    case InputBegin(p, s) => InputSeen(s, r.reg.controllers[s])
    case InputDecide(p, raw, hv) =>
      if r.now > pc.seen.expiresAt then Clearing(pc.session, pc.seen, false) else Serving
    case Fail(p) => Closing
    case Remove(p, todo) => Draining(todo)
    case Drain(p, effective) => Draining(pc.todo[1..])
    case _ => Serving // WatchEnd, AcquireInstall, RenewInstall, Clear; for Exit it does not matter
  }

  ghost function PeersAfter(r: Relay, st: Step): map<Peer, Conn>
    requires Enabled(r, st)
  {
    match st
    case Tick(to) => r.peers
    case Connect(p, d) => r.peers[p := Conn(d, Serving)]
    case Exit(p) => r.peers - {p}
    case _ => r.peers[st.p := Conn(r.peers[st.p].device, PcAfter(r, st))]
  }

  ghost function Apply(r: Relay, st: Step): Relay
    requires Enabled(r, st)
  {
    Relay(r.ttl, if st.Tick? then st.to else r.now, RowsAfter(r, st), RegAfter(r, st), PeersAfter(r, st))
  }

  /** The step hands an input frame of `p` to the daemon of the session. */
  ghost predicate Forwards(r: Relay, st: Step) {
    && st.InputDecide? && Enabled(r, st)
    && var pc := PcOf(r, st.p);
    && r.now <= pc.seen.expiresAt
    && st.raw
    && (st.hv == 0 || st.hv == pc.seen.version)
    && pc.session in r.reg.daemons
  }

  /** A step moves only the connection that takes it. */
  lemma OthersStayPut(r: Relay, st: Step, q: Peer)
    requires Enabled(r, st) && (st.Tick? || q != st.p)
    ensures At(Apply(r, st), q) <==> At(r, q)
    ensures At(r, q) ==> Apply(r, st).peers[q] == r.peers[q]
  {
  }

  /** A control call that is out can take effect, with its answer kept or lost, exactly when the table admits its
      statement at some clock reading up to now; and it can be denied or break at any time. */
  lemma EveryCallCanEnd(r: Relay, p: Peer, at: int, answered: bool, reason: string)
    requires At(r, p) && at <= r.now
    requires PcOf(r, p).AcquireChecked? || PcOf(r, p).RenewChecked? || PcOf(r, p).ReleaseChecked?
    ensures Enabled(r, Denied(p, reason)) && Enabled(r, Fail(p))
    ensures var pc, d := PcOf(r, p), r.peers[p].device;
            match pc
            case AcquireChecked(s) =>
              Enabled(r, AcquireRpc(p, at, answered))
              <==> !(s in r.rows && r.rows[s].expiresAt > at && r.rows[s].device != d)
            case RenewChecked(s, seen) =>
              Enabled(r, RenewRpc(p, at, answered))
              <==> s in r.rows && r.rows[s].device == d && r.rows[s].version == seen.version && r.rows[s].expiresAt > at
            case ReleaseChecked(s, seen) =>
              Enabled(r, ReleaseRpc(p, answered))
              <==> s in r.rows && r.rows[s].device == d && r.rows[s].version == seen.version
            case _ => true
  {
  }

  /** No connection waits for another one: whatever the others have done meanwhile, a handler that is not out on a
      control call can go on, and a connection that has left its loop can go through with its cleanup. */
  lemma EveryHandlerCanGoOn(r: Relay, p: Peer, raw: bool, hv: int, effective: bool, released: seq<Entry>)
    requires At(r, p)
    ensures match PcOf(r, p)
            case WatchAuthorized(_) => Enabled(r, WatchEnd(p))
            case AcquireGranted(_, _) => Enabled(r, AcquireInstall(p))
            case RenewGranted(_, _) => Enabled(r, RenewInstall(p))
            case Clearing(_, _, _) => Enabled(r, Clear(p))
            case InputSeen(_, _) => Enabled(r, InputDecide(p, raw, hv))
            case Closing => IsReleaseList(r.reg.controllers, p, released) ==> Enabled(r, Remove(p, released))
            case Draining(todo) => if todo == [] then Enabled(r, Exit(p)) else Enabled(r, Drain(p, effective))
            case _ => true
  {
  }

  /** What a connection waiting for its next message can begin with, and that nothing else is asked of it. */
  lemma EveryMessageIsTaken(r: Relay, p: Peer, s: SessionId, v: int)
    requires At(r, p) && PcOf(r, p).Serving?
    ensures var cached := s in r.reg.controllers && r.reg.controllers[s].peer == p;
            && Enabled(r, SessionOnline(p, s)) && Enabled(r, Fail(p))
            && (Enabled(r, WatchBegin(p, s)) <==> s in r.reg.daemons)
            && (Enabled(r, AcquireBegin(p, s)) <==>
                  p in r.reg.watching && s in r.reg.watching[p] && s in r.reg.daemons)
            && (Enabled(r, RenewBegin(p, s, v)) <==> v > 0 && cached && r.reg.controllers[s].version == v)
            && (Enabled(r, ReleaseBegin(p, s, v)) <==> v > 0 && cached && r.reg.controllers[s].version == v)
            && (Enabled(r, InputBegin(p, s)) <==> cached)
  {
  }

  // ----- runs

  datatype Run = Start(ttl: int, now: int) | Then(before: Run, step: Step)

  ghost predicate Legal(run: Run)
    decreases run, 0
  {
    run.Then? ==> Legal(run.before) && Enabled(StateOf(run.before), run.step)
  }

  ghost function StateOf(run: Run): Relay
    requires Legal(run)
    decreases run, 1
  {
    match run
    case Start(ttl, now) => Init(ttl, now)
    case Then(before, step) => Apply(StateOf(before), step)
  }

  // ----- what every interleaving keeps

  function Active(r: Relay): set<Peer> {
    set p | p in r.peers && !r.peers[p].pc.Draining?
  }

  /** `seen` is what `p` read for `s`, and unless somebody else has been cached or the entry has been
      dropped since, it is still there: there is no newer entry of `p`. */
  ghost predicate SeenOk(r: Relay, p: Peer, s: SessionId, seen: Entry)
    requires At(r, p)
  {
    && seen.peer == p && seen.session == s && seen.token == r.peers[p].device
    && (s in r.reg.controllers && r.reg.controllers[s].peer == p ==> r.reg.controllers[s] == seen)
  }

  ghost predicate PcOk(r: Relay, p: Peer)
    requires At(r, p)
  {
    match PcOf(r, p)
    case AcquireChecked(s) => IsWatching(r.reg, s, p)
    case AcquireGranted(s, g) => IsWatching(r.reg, s, p)
    case RenewGranted(s, g) => IsWatching(r.reg, s, p)
    case RenewChecked(s, seen) => IsWatching(r.reg, s, p) && SeenOk(r, p, s, seen)
    case ReleaseChecked(s, seen) => IsWatching(r.reg, s, p) && SeenOk(r, p, s, seen)
    case Clearing(s, seen, released) => IsWatching(r.reg, s, p) && SeenOk(r, p, s, seen)
    case InputSeen(s, seen) => IsWatching(r.reg, s, p) && SeenOk(r, p, s, seen)
    case Draining(todo) => forall e | e in todo :: e.token == r.peers[p].device
    case _ => true
  }

  ghost predicate HandlersOk(r: Relay) {
    forall p | At(r, p) :: PcOk(r, p)
  }

  /** Every cached grant is filed under its session and belongs to a connected peer's device. */
  ghost predicate EntriesOk(r: Relay) {
    forall s | s in r.reg.controllers :: var e := r.reg.controllers[s];
      e.session == s && At(r, e.peer) && e.token == r.peers[e.peer].device
  }

  ghost predicate Coherent(r: Relay) {
    && Consistent(r.reg)
    && MentionsOnly(r.reg, Active(r))
    && EntriesOk(r)
    && HandlersOk(r)
  }

  lemma StepKeepsConsistent(r: Relay, st: Step)
    requires Consistent(r.reg) && MentionsOnly(r.reg, Active(r)) && HandlersOk(r) && Enabled(r, st)
    ensures Consistent(Apply(r, st).reg)
  {
    match st {
      case SessionOnline(p, s) => SetDaemonKeepsConsistent(r.reg, s, p);
      case WatchEnd(p) => AddWatcherKeepsConsistent(r.reg, PcOf(r, p).session, p);
      case AcquireInstall(p) =>
        assert PcOk(r, p);
        SetControllerKeepsConsistent(r.reg, PcOf(r, p).session, p, PcOf(r, p).grant, r.peers[p].device);
      case RenewInstall(p) =>
        assert PcOk(r, p);
        SetControllerKeepsConsistent(r.reg, PcOf(r, p).session, p, PcOf(r, p).grant, r.peers[p].device);
      case Clear(p) => ClearControllerKeepsConsistent(r.reg, PcOf(r, p).session, p);
      case Remove(p, todo) => RemovePeerKeepsConsistent(r.reg, p, Active(r));
      case _ =>
    }
  }

  lemma StepKeepsMentions(r: Relay, st: Step)
    requires MentionsOnly(r.reg, Active(r)) && Enabled(r, st)
    ensures MentionsOnly(Apply(r, st).reg, Active(Apply(r, st)))
  {
    var r' := Apply(r, st);
    assert forall p | p in Active(r) && !(st.Remove? && p == st.p) :: p in Active(r');
  }

  lemma StepKeepsEntries(r: Relay, st: Step)
    requires MentionsOnly(r.reg, Active(r)) && EntriesOk(r) && Enabled(r, st)
    ensures EntriesOk(Apply(r, st))
  {
  }

  /** A connection other than the one taking the step is in the state it was in. */
  lemma OtherHandlerKeepsOk(r: Relay, st: Step, q: Peer)
    requires Enabled(r, st) && (st.Tick? || q != st.p)
    requires At(r, q) && PcOk(r, q)
    ensures At(Apply(r, st), q) && PcOk(Apply(r, st), q)
  {
    var r' := Apply(r, st);
    assert r'.peers[q] == r.peers[q];
    assert forall s | IsWatching(r.reg, s, q) :: IsWatching(r'.reg, s, q);
    assert forall s | s in r'.reg.controllers && r'.reg.controllers[s].peer == q ::
      s in r.reg.controllers && r'.reg.controllers[s] == r.reg.controllers[s];
  }

  lemma OwnHandlerKeepsOk(r: Relay, st: Step)
    requires !st.Tick? && Enabled(r, st) && EntriesOk(r) && Consistent(r.reg)
    requires At(r, st.p) ==> PcOk(r, st.p)
    ensures At(Apply(r, st), st.p) ==> PcOk(Apply(r, st), st.p)
  {
  }

  lemma StepKeepsHandlers(r: Relay, st: Step)
    requires Consistent(r.reg) && EntriesOk(r) && HandlersOk(r) && Enabled(r, st)
    ensures HandlersOk(Apply(r, st))
  {
    forall q | At(Apply(r, st), q)
      ensures PcOk(Apply(r, st), q)
    {
      if st.Tick? || q != st.p {
        OtherHandlerKeepsOk(r, st, q);
      } else {
        OwnHandlerKeepsOk(r, st);
      }
    }
  }

  lemma StepKeepsCoherent(r: Relay, st: Step)
    requires Coherent(r) && Enabled(r, st)
    ensures Coherent(Apply(r, st))
  {
    StepKeepsConsistent(r, st);
    StepKeepsMentions(r, st);
    StepKeepsEntries(r, st);
    StepKeepsHandlers(r, st);
  }

  /** Over every interleaving: the watch maps mirror each other, no watcher set is empty, every cached
      grant belongs to a connected peer that watches the session, and no peer has a grant cached that is
      newer than what its handler has read. */
  lemma {:induction false} EveryRunIsCoherent(run: Run)
    requires Legal(run)
    ensures Coherent(StateOf(run))
  {
    if run.Then? {
      EveryRunIsCoherent(run.before);
      StepKeepsCoherent(StateOf(run.before), run.step);
    }
  }

  /** Once every connection that was ever opened has gone, the registry is as it was at the start. */
  lemma AllGoneMeansEmptyRegistry(run: Run)
    requires Legal(run) && StateOf(run).peers == map[]
    ensures StateOf(run).reg == EMPTY
  {
    EveryRunIsCoherent(run);
    assert Active(StateOf(run)) == {};
    NobodyLeftMeansEmpty(StateOf(run).reg);
  }

  /** No clobbering in the registry: a step of `p` that takes cached grants out takes out only grants of
      `p` itself, and a handler that clears does not take out more than the very grant it read. */
  lemma ClearingNeverClobbers(run: Run, st: Step, x: SessionId)
    requires Legal(run) && Enabled(StateOf(run), st)
    requires x in StateOf(run).reg.controllers
    requires x !in Apply(StateOf(run), st).reg.controllers
    ensures var r := StateOf(run);
            || (st.Clear? && PcOf(r, st.p).session == x && r.reg.controllers[x] == PcOf(r, st.p).seen)
            || (st.Remove? && r.reg.controllers[x].peer == st.p && r.reg.controllers[x] in st.todo)
  {
    EveryRunIsCoherent(run);
    var r := StateOf(run);
    if st.Clear? {
      assert PcOk(r, st.p);
    }
  }

  /** No clobbering in the table: the only steps that delete a lease are the holder's own release and the
      releases after its disconnect, and the deleted row is held by that connection's device. */
  lemma ReleasesNeverClobber(run: Run, st: Step, x: SessionId)
    requires Legal(run) && Enabled(StateOf(run), st)
    requires x in StateOf(run).rows
    requires x !in Apply(StateOf(run), st).rows
    ensures st.ReleaseRpc? || (st.Drain? && st.effective)
    ensures StateOf(run).rows[x].device == StateOf(run).peers[st.p].device
  {
    EveryRunIsCoherent(run);
    var r := StateOf(run);
    if !st.Tick? && !st.Connect? {
      assert PcOk(r, st.p);
    }
  }
}
