/**
  The relay authorises input from its cache without asking the lease table. These lemmas say how far
  the cache can be trusted.
 */
module RelaySafety {
  import opened Base
  import opened LeaseTable
  import opened Registry
  import opened RelayProtocol

  /** Device `d` holds the row of `s` at version `v`, and the row lasts at least until `expiresAt`. */
  predicate Backed(rows: Rows, d: DeviceId, s: SessionId, v: int, expiresAt: int) {
    s in rows && rows[s].device == d && rows[s].version == v && expiresAt <= rows[s].expiresAt
  }

  predicate EntryBacked(rows: Rows, e: Entry) {
    Backed(rows, e.token, e.session, e.version, e.expiresAt)
  }

  /** The connection is busy in a handler that ends by replacing or dropping its grant for `s`, so it
      cannot use the cached one. */
  predicate Replacing(pc: Pc, s: SessionId) {
    match pc
    case AcquireGranted(s', _) => s' == s
    case RenewGranted(s', _) => s' == s
    case Clearing(s', _, released) => s' == s && released
    case Closing => true
    case _ => false
  }

  /** The release a step runs against the table. */
  function ReleaseOf(r: Relay, st: Step): Option<Statement>
    requires !st.Tick? ==> At(r, st.p) || st.Connect?
  {
    match st
    case ReleaseRpc(p, _) =>
      var pc := PcOf(r, p);
      if pc.ReleaseChecked? then Some(Release(pc.session, r.peers[p].device, pc.seen.version)) else None
    case Drain(p, effective) =>
      var pc := PcOf(r, p);
      if effective && pc.Draining? && pc.todo != [] then Some(DrainStatement(pc.todo[0])) else None
    case _ => None
  }

  /** The step runs a statement for session `s` as device `d`. */
  predicate WritesAs(r: Relay, st: Step, s: SessionId, d: DeviceId)
    requires !st.Tick? ==> At(r, st.p) || st.Connect?
  {
    match st
    case AcquireRpc(p, _, _) => PcOf(r, p).AcquireChecked? && PcOf(r, p).session == s && r.peers[p].device == d
    case RenewRpc(p, _, _) => PcOf(r, p).RenewChecked? && PcOf(r, p).session == s && r.peers[p].device == d
    case ReleaseRpc(p, _) => PcOf(r, p).ReleaseChecked? && PcOf(r, p).session == s && r.peers[p].device == d
    case Drain(p, effective) =>
      effective && PcOf(r, p).Draining? && PcOf(r, p).todo != []
      && PcOf(r, p).todo[0].session == s && PcOf(r, p).todo[0].token == d
    case _ => false
  }

  // ----- one connection per device: grant and caching may be far apart

  ghost predicate Exclusive(r: Relay) {
    forall p, q | At(r, p) && At(r, q) && r.peers[p].device == r.peers[q].device :: p == q
  }

  /** No connection is opened for a device that still has one, counting one that is still releasing. */
  ghost predicate OneConnectionPerDevice(run: Run)
    requires Legal(run)
  {
    run.Then? ==>
      && OneConnectionPerDevice(run.before)
      && (run.step.Connect? ==>
            forall q | At(StateOf(run.before), q) :: StateOf(run.before).peers[q].device != run.step.device)
  }

  lemma {:induction false} OneConnectionIsExclusive(run: Run)
    requires Legal(run) && OneConnectionPerDevice(run)
    ensures Exclusive(StateOf(run))
  {
    if run.Then? {
      OneConnectionIsExclusive(run.before);
      var r, st := StateOf(run.before), run.step;
      forall q | At(Apply(r, st), q) && (st.Tick? || q != st.p)
        ensures At(r, q) && Apply(r, st).peers[q] == r.peers[q]
      {
        OthersStayPut(r, st, q);
      }
    }
  }

  /** A grant that is either still good in the table or not usable for longer than this instant. */
  predicate Sound(r: Relay, d: DeviceId, s: SessionId, v: int, expiresAt: int) {
    Backed(r.rows, d, s, v, expiresAt) || expiresAt <= r.now
  }

  ghost predicate HandlerSound(r: Relay, p: Peer)
    requires At(r, p)
  {
    match PcOf(r, p)
    case AcquireGranted(s, g) => Sound(r, r.peers[p].device, s, g.version, g.expiresAt)
    case RenewGranted(s, g) => Sound(r, r.peers[p].device, s, g.version, g.expiresAt)
    case InputSeen(s, seen) => Sound(r, r.peers[p].device, s, seen.version, seen.expiresAt)
    case _ => true
  }

  ghost predicate CacheSound(r: Relay) {
    && (forall p | At(r, p) :: HandlerSound(r, p))
    && (forall s | s in r.reg.controllers :: EntrySound(r, s))
  }

  ghost predicate EntrySound(r: Relay, s: SessionId)
    requires s in r.reg.controllers
  {
    var e := r.reg.controllers[s];
    At(r, e.peer) && (Replacing(PcOf(r, e.peer), s) || Sound(r, e.token, s, e.version, e.expiresAt))
  }

  /** Only the device's own statements, or the passing of the expiry, can take the backing away. */
  lemma SoundSurvives(r: Relay, st: Step, d: DeviceId, s: SessionId, v: int, expiresAt: int)
    requires HandlersOk(r) && Enabled(r, st) && Sound(r, d, s, v, expiresAt)
    requires !WritesAs(r, st, s, d)
    ensures Sound(Apply(r, st), d, s, v, expiresAt)
  {
    if st.Drain? {
      assert PcOk(r, st.p);
    }
  }

  lemma OtherHandlerStaysSound(r: Relay, st: Step, p: Peer)
    requires HandlersOk(r) && Exclusive(r) && Enabled(r, st) && (st.Tick? || st.p != p)
    requires At(r, p) && HandlerSound(r, p)
    ensures At(Apply(r, st), p) && HandlerSound(Apply(r, st), p)
  {
    OthersStayPut(r, st, p);
    if st.Drain? {
      assert PcOk(r, st.p);
    }
    var d := r.peers[p].device;
    match PcOf(r, p) {
      case AcquireGranted(s, g) => SoundSurvives(r, st, d, s, g.version, g.expiresAt);
      case RenewGranted(s, g) => SoundSurvives(r, st, d, s, g.version, g.expiresAt);
      case InputSeen(s, seen) => SoundSurvives(r, st, d, s, seen.version, seen.expiresAt);
      case _ =>
    }
  }

  lemma OwnHandlerStaysSound(r: Relay, st: Step)
    requires Enabled(r, st) && !st.Tick? && EntriesOk(r)
    requires st.InputBegin? ==> EntrySound(r, st.s)
    requires At(Apply(r, st), st.p)
    ensures HandlerSound(Apply(r, st), st.p)
  {
  }

  lemma EntryOfOtherStaysSound(r: Relay, st: Step, s: SessionId)
    requires HandlersOk(r) && Exclusive(r) && EntriesOk(r) && Enabled(r, st)
    requires s in r.reg.controllers && EntrySound(r, s)
    requires s in Apply(r, st).reg.controllers && Apply(r, st).reg.controllers[s] == r.reg.controllers[s]
    requires st.Tick? || st.p != r.reg.controllers[s].peer
    ensures EntrySound(Apply(r, st), s)
  {
    var e := r.reg.controllers[s];
    OthersStayPut(r, st, e.peer);
    if st.Drain? {
      assert PcOk(r, st.p);
    }
    if !Replacing(PcOf(r, e.peer), s) {
      SoundSurvives(r, st, e.token, s, e.version, e.expiresAt);
    }
  }

  lemma OwnEntryStaysSound(r: Relay, st: Step, s: SessionId)
    requires HandlersOk(r) && EntriesOk(r) && Enabled(r, st) && !st.Tick?
    requires s in r.reg.controllers && EntrySound(r, s) && r.reg.controllers[s].peer == st.p
    requires !PcOf(r, st.p).Draining?
    requires s in Apply(r, st).reg.controllers && Apply(r, st).reg.controllers[s] == r.reg.controllers[s]
    requires (st.AcquireInstall? || st.RenewInstall?) ==> PcOf(r, st.p).session != s
    ensures EntrySound(Apply(r, st), s)
  {
    var e := r.reg.controllers[s];
    if WritesAs(r, st, s, e.token) {
      assert Replacing(PcOf(Apply(r, st), e.peer), s);
    } else if !Replacing(PcOf(r, e.peer), s) {
      SoundSurvives(r, st, e.token, s, e.version, e.expiresAt);
    }
  }

  lemma InstalledEntryIsSound(r: Relay, st: Step)
    requires Enabled(r, st) && (st.AcquireInstall? || st.RenewInstall?) && HandlerSound(r, st.p)
    ensures EntrySound(Apply(r, st), PcOf(r, st.p).session)
  {
  }

  /** An entry of the cache after a step was there before, unless the step installed it. */
  lemma EntryKeptOrInstalled(r: Relay, st: Step, s: SessionId)
    requires Enabled(r, st) && s in Apply(r, st).reg.controllers
    ensures ((st.AcquireInstall? || st.RenewInstall?) && PcOf(r, st.p).session == s)
            || (s in r.reg.controllers && Apply(r, st).reg.controllers[s] == r.reg.controllers[s])
  {
  }

  lemma StepKeepsCacheSound(r: Relay, st: Step)
    requires Coherent(r) && Exclusive(r) && CacheSound(r) && Enabled(r, st)
    ensures CacheSound(Apply(r, st))
  {
    forall p | At(Apply(r, st), p)
      ensures HandlerSound(Apply(r, st), p)
    {
      if st.Tick? || st.p != p {
        OthersStayPut(r, st, p);
        OtherHandlerStaysSound(r, st, p);
      } else {
        OwnHandlerStaysSound(r, st);
      }
    }
    forall s | s in Apply(r, st).reg.controllers
      ensures EntrySound(Apply(r, st), s)
    {
      EntryKeptOrInstalled(r, st, s);
      if (st.AcquireInstall? || st.RenewInstall?) && PcOf(r, st.p).session == s {
        InstalledEntryIsSound(r, st);
      } else if st.Tick? || st.p != r.reg.controllers[s].peer {
        EntryOfOtherStaysSound(r, st, s);
      } else {
        assert st.p in Active(r);
        OwnEntryStaysSound(r, st, s);
      }
    }
  }

  lemma {:induction false} EveryCacheIsSound(run: Run)
    requires Legal(run) && OneConnectionPerDevice(run)
    ensures CacheSound(StateOf(run))
  {
    if run.Then? {
      EveryCacheIsSound(run.before);
      EveryRunIsCoherent(run.before);
      OneConnectionIsExclusive(run.before);
      StepKeepsCacheSound(StateOf(run.before), run.step);
    }
  }

  /** Safety with every delay allowed: replies may be late or lost, caching may come long after the
      grant, and the cached grant may be read long before the clock. Input forwarded strictly before the
      cached expiry comes from the device that holds the lease row at that very moment, at the cached
      version, before the row expires. */
  lemma ForwardedInputHoldsTheLease(run: Run, st: Step)
    requires Legal(run) && OneConnectionPerDevice(run) && Forwards(StateOf(run), st)
    ensures var r := StateOf(run); var pc := PcOf(r, st.p);
            && (st.hv == 0 || st.hv == pc.seen.version)
            && (r.now < pc.seen.expiresAt ==>
                  && Backed(r.rows, r.peers[st.p].device, pc.session, pc.seen.version, pc.seen.expiresAt)
                  && pc.session in r.rows && r.rows[pc.session].device == r.peers[st.p].device
                  && r.rows[pc.session].version == pc.seen.version && r.now < r.rows[pc.session].expiresAt)
  {
    EveryCacheIsSound(run);
    assert HandlerSound(StateOf(run), st.p);
  }

  // ----- grant and caching in one go: any number of connections per device

  /** The connection has been granted a lease that is not cached yet. */
  predicate InWindow(pc: Pc) {
    pc.AcquireGranted? || pc.RenewGranted?
  }

  /** Nobody steps in between a grant and its caching. */
  ghost predicate Undivided(r: Relay, st: Step) {
    forall q | At(r, q) && InWindow(PcOf(r, q)) :: !st.Tick? && st.p == q
  }

  /** The cached grant of `s` belongs to another connection than `p`, which can use it. */
  ghost predicate UsedByAnother(r: Relay, s: SessionId, p: Peer) {
    && s in r.reg.controllers
    && var e := r.reg.controllers[s];
      e.peer != p && At(r, e.peer) && !Replacing(PcOf(r, e.peer), s)
  }

  /** A release is about to delete the row under a usable grant cached for another connection of the
      same device: same device, same version, but a later lifetime of the row. */
  ghost predicate Aliased(r: Relay, st: Step)
    requires Enabled(r, st)
  {
    ReleaseOf(r, st).Some? && var rel := ReleaseOf(r, st).value;
      && UsedByAnother(r, rel.session, st.p)
      && r.reg.controllers[rel.session].token == rel.device
      && r.reg.controllers[rel.session].version == rel.version
  }

  /** A grant is about to take effect whose answer is lost, while a usable grant of the same session is cached
      for another connection. */
  ghost predicate Orphaned(r: Relay, st: Step)
    requires Enabled(r, st)
  {
    (st.AcquireRpc? || st.RenewRpc?) && !st.replied && UsedByAnother(r, PcOf(r, st.p).session, st.p)
  }

  /** A connection has just been granted `s` and is about to be cached for it. */
  ghost predicate Arriving(r: Relay, s: SessionId) {
    exists q :: At(r, q) && (PcOf(r, q).AcquireGranted? || PcOf(r, q).RenewGranted?) && PcOf(r, q).session == s
  }

  /** Every cached grant that can be used is the row in the table. */
  ghost predicate Agrees(r: Relay) {
    && (forall p, q | At(r, p) && At(r, q) && InWindow(PcOf(r, p)) && InWindow(PcOf(r, q)) :: p == q)
    && (forall p | At(r, p) && InWindow(PcOf(r, p)) :: WindowBacked(r, p))
    && (forall s | s in r.reg.controllers :: EntryAgrees(r, s))
  }

  ghost predicate EntryAgrees(r: Relay, s: SessionId)
    requires s in r.reg.controllers
  {
    var e := r.reg.controllers[s];
    At(r, e.peer) && (Replacing(PcOf(r, e.peer), s) || Arriving(r, s) || EntryBacked(r.rows, e))
  }

  ghost predicate WindowBacked(r: Relay, p: Peer)
    requires At(r, p)
  {
    var d := r.peers[p].device;
    match PcOf(r, p)
    case AcquireGranted(s, g) => Backed(r.rows, d, s, g.version, g.expiresAt)
    case RenewGranted(s, g) => Backed(r.rows, d, s, g.version, g.expiresAt)
    case _ => true
  }

  lemma OnlyTheStepperIsInWindow(r: Relay, st: Step, p: Peer)
    requires Enabled(r, st) && Undivided(r, st)
    requires At(Apply(r, st), p) && InWindow(PcOf(Apply(r, st), p))
    ensures !st.Tick? && p == st.p
  {
    if st.Tick? || p != st.p {
      OthersStayPut(r, st, p);
    }
  }

  lemma WindowStaysBacked(r: Relay, st: Step)
    requires Enabled(r, st) && Undivided(r, st) && !st.Tick?
    requires At(Apply(r, st), st.p)
    ensures WindowBacked(Apply(r, st), st.p)
  {
  }

  /** A usable cached grant survives every step that runs no statement on its row. */
  lemma BackedSurvives(r: Relay, st: Step, e: Entry)
    requires Enabled(r, st) && EntryBacked(r.rows, e) && !Aliased(r, st)
    requires e.session in r.reg.controllers && r.reg.controllers[e.session] == e && At(r, e.peer)
    requires !Replacing(PcOf(r, e.peer), e.session)
    requires st.AcquireRpc? || st.RenewRpc? ==> PcOf(r, st.p).session != e.session
    requires ReleaseOf(r, st).Some? ==> st.p != e.peer
    ensures EntryBacked(Apply(r, st).rows, e)
  {
  }

  lemma NothingArrivesUndivided(r: Relay, st: Step, s: SessionId)
    requires Enabled(r, st) && Undivided(r, st)
    requires (st.AcquireInstall? || st.RenewInstall?) ==> PcOf(r, st.p).session != s
    ensures !Arriving(r, s)
  {
    forall q | At(r, q) && InWindow(PcOf(r, q))
      ensures PcOf(r, q).session != s
    {
      assert st.p == q && (st.AcquireInstall? || st.RenewInstall?);
    }
  }

  lemma GrantArrives(r: Relay, st: Step)
    requires Enabled(r, st) && (st.AcquireRpc? || st.RenewRpc?) && st.replied
    ensures Arriving(Apply(r, st), PcOf(r, st.p).session)
  {
    var r' := Apply(r, st);
    assert At(r', st.p) && PcOf(r', st.p).session == PcOf(r, st.p).session;
  }

  lemma EntryOfOtherStaysAgreed(r: Relay, st: Step, s: SessionId)
    requires Enabled(r, st) && Undivided(r, st) && !Aliased(r, st) && EntriesOk(r)
    requires s in r.reg.controllers && EntryAgrees(r, s) && !Arriving(r, s)
    requires s in Apply(r, st).reg.controllers && Apply(r, st).reg.controllers[s] == r.reg.controllers[s]
    requires st.Tick? || st.p != r.reg.controllers[s].peer
    requires (st.AcquireRpc? || st.RenewRpc?) ==> PcOf(r, st.p).session != s
    ensures EntryAgrees(Apply(r, st), s)
  {
    var e := r.reg.controllers[s];
    OthersStayPut(r, st, e.peer);
    if !Replacing(PcOf(r, e.peer), s) {
      BackedSurvives(r, st, e);
    }
  }

  lemma OwnEntryStaysAgreed(r: Relay, st: Step, s: SessionId)
    requires Enabled(r, st) && Undivided(r, st) && EntriesOk(r) && !st.Tick? && At(r, st.p) && PcOk(r, st.p)
    requires s in r.reg.controllers && EntryAgrees(r, s) && !Arriving(r, s)
    requires s in Apply(r, st).reg.controllers && Apply(r, st).reg.controllers[s] == r.reg.controllers[s]
    requires st.p == r.reg.controllers[s].peer && !PcOf(r, st.p).Draining?
    requires (st.AcquireRpc? || st.RenewRpc?) ==> PcOf(r, st.p).session != s
    ensures EntryAgrees(Apply(r, st), s)
  {
  }

  lemma KeptEntryStaysAgreed(r: Relay, st: Step, s: SessionId)
    requires HandlersOk(r) && EntriesOk(r) && MentionsOnly(r.reg, Active(r))
    requires Enabled(r, st) && Undivided(r, st) && !Aliased(r, st) && !Orphaned(r, st)
    requires s in r.reg.controllers && EntryAgrees(r, s)
    requires s in Apply(r, st).reg.controllers && Apply(r, st).reg.controllers[s] == r.reg.controllers[s]
    requires (st.AcquireInstall? || st.RenewInstall?) ==> PcOf(r, st.p).session != s
    ensures EntryAgrees(Apply(r, st), s)
  {
    NothingArrivesUndivided(r, st, s);
    if (st.AcquireRpc? || st.RenewRpc?) && PcOf(r, st.p).session == s {
      if st.replied {
        GrantArrives(r, st);
      }
      var peer := r.reg.controllers[s].peer;
      if peer != st.p {
        OthersStayPut(r, st, peer);
      }
    } else if st.Tick? || st.p != r.reg.controllers[s].peer {
      EntryOfOtherStaysAgreed(r, st, s);
    } else {
      assert r.reg.controllers[s].peer in Active(r);
      assert PcOk(r, st.p);
      OwnEntryStaysAgreed(r, st, s);
    }
  }

  lemma InstalledEntryAgrees(r: Relay, st: Step)
    requires Enabled(r, st) && (st.AcquireInstall? || st.RenewInstall?) && WindowBacked(r, st.p)
    ensures EntryAgrees(Apply(r, st), PcOf(r, st.p).session)
  {
  }

  lemma SeveredEntryDisagrees(r: Relay, st: Step, s: SessionId)
    requires Agrees(r) && EntriesOk(r) && Enabled(r, st) && Undivided(r, st) && !st.Tick? && !st.Connect?
    requires !PcAfter(r, st).AcquireGranted? && !PcAfter(r, st).RenewGranted?
    requires !st.AcquireInstall? && !st.RenewInstall?
    requires UsedByAnother(r, s, st.p) && s in Apply(r, st).reg.controllers
    requires Apply(r, st).reg.controllers[s] == r.reg.controllers[s]
    requires EntryBacked(r.rows, r.reg.controllers[s]) ==> !EntryBacked(Apply(r, st).rows, r.reg.controllers[s])
    ensures !Agrees(Apply(r, st))
  {
    var e, r' := r.reg.controllers[s], Apply(r, st);
    assert EntryAgrees(r, s);
    NothingArrivesUndivided(r, st, s);
    OthersStayPut(r, st, e.peer);
    forall q | At(r', q)
      ensures !InWindow(PcOf(r', q))
    {
      if q != st.p {
        OthersStayPut(r, st, q);
      }
    }
    assert !EntryAgrees(r', s);
  }

  lemma AliasedReleaseBreaksAgreement(r: Relay, st: Step)
    requires Agrees(r) && EntriesOk(r) && Enabled(r, st) && Undivided(r, st) && Aliased(r, st)
    ensures !Agrees(Apply(r, st))
  {
    SeveredEntryDisagrees(r, st, ReleaseOf(r, st).value.session);
  }

  lemma OrphanedGrantBreaksAgreement(r: Relay, st: Step)
    requires Agrees(r) && EntriesOk(r) && Enabled(r, st) && Undivided(r, st) && Orphaned(r, st)
    ensures !Agrees(Apply(r, st))
  {
    SeveredEntryDisagrees(r, st, PcOf(r, st.p).session);
  }

  /** Step by step, and with any number of connections per device: as long as nobody steps in between a grant
      and its caching, a step breaks the agreement between cache and table exactly when it is an aliased release
      or an orphaned grant. */
  lemma AgreementBreaksExactlyWhenSevered(r: Relay, st: Step)
    requires Coherent(r) && Agrees(r) && Enabled(r, st) && Undivided(r, st)
    ensures Agrees(Apply(r, st)) <==> !Aliased(r, st) && !Orphaned(r, st)
  {
    if Aliased(r, st) {
      AliasedReleaseBreaksAgreement(r, st);
      return;
    }
    if Orphaned(r, st) {
      OrphanedGrantBreaksAgreement(r, st);
      return;
    }
    forall p | At(Apply(r, st), p) && InWindow(PcOf(Apply(r, st), p))
      ensures !st.Tick? && p == st.p && WindowBacked(Apply(r, st), p)
    {
      OnlyTheStepperIsInWindow(r, st, p);
      WindowStaysBacked(r, st);
    }
    forall s | s in Apply(r, st).reg.controllers
      ensures EntryAgrees(Apply(r, st), s)
    {
      EntryKeptOrInstalled(r, st, s);
      if (st.AcquireInstall? || st.RenewInstall?) && PcOf(r, st.p).session == s {
        assert WindowBacked(r, st.p);
        InstalledEntryAgrees(r, st);
      } else {
        KeptEntryStaysAgreed(r, st, s);
      }
    }
  }

  ghost predicate UndividedRun(run: Run)
    requires Legal(run)
  {
    run.Then? ==> UndividedRun(run.before) && Undivided(StateOf(run.before), run.step)
  }

  ghost predicate NeverAliased(run: Run)
    requires Legal(run)
  {
    run.Then? ==> NeverAliased(run.before) && !Aliased(StateOf(run.before), run.step)
  }

  ghost predicate NeverOrphaned(run: Run)
    requires Legal(run)
  {
    run.Then? ==> NeverOrphaned(run.before) && !Orphaned(StateOf(run.before), run.step)
  }

  /** Every grant that takes effect is answered. */
  ghost predicate Answered(run: Run) {
    run.Then? ==> Answered(run.before) && (run.step.AcquireRpc? || run.step.RenewRpc? ==> run.step.replied)
  }

  lemma {:induction false} AnsweredNeverOrphans(run: Run)
    requires Legal(run) && Answered(run)
    ensures NeverOrphaned(run)
  {
    if run.Then? {
      AnsweredNeverOrphans(run.before);
    }
  }

  lemma {:induction false} EveryCacheAgrees(run: Run)
    requires Legal(run) && UndividedRun(run) && NeverAliased(run) && NeverOrphaned(run)
    ensures Agrees(StateOf(run))
  {
    if run.Then? {
      EveryCacheAgrees(run.before);
      EveryRunIsCoherent(run.before);
      AgreementBreaksExactlyWhenSevered(StateOf(run.before), run.step);
    }
  }

  lemma ExclusiveNeverAliases(r: Relay, st: Step)
    requires Exclusive(r) && HandlersOk(r) && EntriesOk(r) && Enabled(r, st)
    ensures !Aliased(r, st)
  {
    if st.ReleaseRpc? || st.Drain? {
      assert PcOk(r, st.p);
    }
  }

  /** One connection per device rules aliased releases out. */
  lemma {:induction false} OneConnectionNeverAliases(run: Run)
    requires Legal(run) && OneConnectionPerDevice(run)
    ensures NeverAliased(run)
  {
    if run.Then? {
      OneConnectionNeverAliases(run.before);
      OneConnectionIsExclusive(run.before);
      EveryRunIsCoherent(run.before);
      ExclusiveNeverAliases(StateOf(run.before), run.step);
    }
  }

  /** `read` is where `run` was, or still is. */
  ghost predicate LeadsTo(read: Run, run: Run) {
    run == read || (run.Then? && LeadsTo(read, run.before))
  }

  ghost predicate SameRow(rows: Rows, rows': Rows, s: SessionId) {
    (s in rows <==> s in rows') && (s in rows ==> rows[s] == rows'[s])
  }

  /** A cached grant is the row of the table at the moment it is read for an input frame. */
  lemma ReadGrantIsTheRow(read: Run)
    requires Legal(read) && UndividedRun(read) && NeverAliased(read) && NeverOrphaned(read)
    requires read.Then? && read.step.InputBegin?
    ensures var r := StateOf(read); var pc := PcOf(r, read.step.p);
            Backed(r.rows, r.peers[read.step.p].device, read.step.s, pc.seen.version, pc.seen.expiresAt)
  {
    var r, st := StateOf(read.before), read.step;
    EveryCacheAgrees(read.before);
    EveryRunIsCoherent(read.before);
    assert EntryAgrees(r, st.s);
    NothingArrivesUndivided(r, st, st.s);
  }

  /** The cache refines the table: input decided on at any time up to and including the cached expiry comes from
      the device that holds the row, at the cached version, no later than the row's expiry, provided no statement
      has touched that row since the cached grant was read; whatever else happened in between. */
  lemma CacheRefinesTable(read: Run, run: Run, st: Step)
    requires Legal(read) && UndividedRun(read) && NeverAliased(read) && NeverOrphaned(read)
    requires read.Then? && read.step.InputBegin? && LeadsTo(read, run)
    requires Legal(run) && Forwards(StateOf(run), st) && st.p == read.step.p
    requires StateOf(run).peers[st.p] == StateOf(read).peers[st.p]
    requires SameRow(StateOf(read).rows, StateOf(run).rows, read.step.s)
    ensures var r := StateOf(run); var pc := PcOf(r, st.p);
            && Backed(r.rows, r.peers[st.p].device, pc.session, pc.seen.version, pc.seen.expiresAt)
            && pc.session in r.rows && r.rows[pc.session].device == r.peers[st.p].device
            && r.rows[pc.session].version == pc.seen.version && r.now <= r.rows[pc.session].expiresAt
  {
    ReadGrantIsTheRow(read);
  }

  /** From `read` to `run` the row of `s` has been in the table all the time. */
  ghost predicate RowStays(read: Run, run: Run, s: SessionId)
    requires Legal(run)
  {
    s in StateOf(run).rows && (run == read || (run.Then? && RowStays(read, run.before, s)))
  }

  /** From `read` to `run` no acquire and no renewal of session `s` has been granted. */
  ghost predicate NoGrantSince(read: Run, run: Run, s: SessionId)
    requires Legal(run)
  {
    run == read ||
    (&& run.Then? && NoGrantSince(read, run.before, s)
     && (run.step.AcquireRpc? || run.step.RenewRpc? ==> PcOf(StateOf(run.before), run.step.p).session != s))
  }

  /** A step that leaves a row in the table moves its version on by one if it grants the session, and otherwise leaves
      the row as it is. */
  lemma StepKeepsOrAdvances(r: Relay, st: Step, s: SessionId)
    requires Enabled(r, st) && s in r.rows && s in Apply(r, st).rows
    ensures if (st.AcquireRpc? || st.RenewRpc?) && PcOf(r, st.p).session == s
            then Apply(r, st).rows[s].version == r.rows[s].version + 1
            else Apply(r, st).rows[s] == r.rows[s]
  {
  }

  lemma {:induction false} VersionTellsTheGrants(read: Run, run: Run, s: SessionId)
    requires Legal(run) && Legal(read) && RowStays(read, run, s)
    ensures s in StateOf(read).rows
    ensures var row, row' := StateOf(read).rows[s], StateOf(run).rows[s];
            if NoGrantSince(read, run, s) then row' == row else row'.version > row.version
  {
    if run != read {
      VersionTellsTheGrants(read, run.before, s);
      StepKeepsOrAdvances(StateOf(run.before), run.step, s);
    }
  }

  /** As long as the row is not deleted meanwhile, input comes from the holder of the row at the cached version exactly
      when no acquire and no renewal of the session, by anybody, has been granted between the reading of the cached
      grant and the decision. */
  lemma BackedExactlyWhenUntouched(read: Run, run: Run, st: Step)
    requires Legal(read) && UndividedRun(read) && NeverAliased(read) && NeverOrphaned(read)
    requires read.Then? && read.step.InputBegin?
    requires Legal(run) && Forwards(StateOf(run), st) && st.p == read.step.p
    requires StateOf(run).peers[st.p] == StateOf(read).peers[st.p]
    requires RowStays(read, run, read.step.s)
    ensures var r := StateOf(run); var pc := PcOf(r, st.p);
            Backed(r.rows, r.peers[st.p].device, pc.session, pc.seen.version, pc.seen.expiresAt)
            <==> NoGrantSince(read, run, pc.session)
  {
    ReadGrantIsTheRow(read);
    VersionTellsTheGrants(read, run, read.step.s);
  }
}
