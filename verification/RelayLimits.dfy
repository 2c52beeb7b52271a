/**
  Runs that show that no hypothesis of the relay's safety lemmas can be dropped: the cached expiry is inclusive
  while the table's is exclusive, a version names a grant only within one lifetime of the row, the answer to a
  grant can be lost, and a cached grant can be replaced between being read and being used.
 */
module RelayLimits {
  import opened Base
  import opened LeaseTable
  import opened Registry
  import opened RelayProtocol
  import opened RelaySafety

  const TTL: int := 30 * SECOND

  /** The hypotheses a run is built under: one connection per device, nobody stepping in between a grant and its
      caching, every grant answered, no release of any kind. */
  datatype Discipline = Discipline(oneEach: bool, undivided: bool, answered: bool, unreleased: bool)

  const ONE_EACH: Discipline := Discipline(true, false, true, true)
  const AT_ONCE: Discipline := Discipline(false, true, true, false)
  const UNRELEASED: Discipline := Discipline(false, true, true, true)
  const UNANSWERED: Discipline := Discipline(false, true, false, true)

  ghost predicate NoReleaseIn(run: Run) {
    run.Then? ==> NoReleaseIn(run.before) && !run.step.ReleaseRpc? && !run.step.Drain?
  }

  lemma {:induction false} UnreleasedNeverAliases(run: Run)
    requires Legal(run) && NoReleaseIn(run)
    ensures NeverAliased(run)
  {
    if run.Then? {
      UnreleasedNeverAliases(run.before);
    }
  }

  ghost predicate Reaches(run: Run, r: Relay, how: Discipline) {
    && Legal(run) && StateOf(run) == r
    && (how.oneEach ==> OneConnectionPerDevice(run))
    && (how.undivided ==> UndividedRun(run))
    && (how.answered ==> Answered(run))
    && (how.unreleased ==> NoReleaseIn(run))
  }

  ghost predicate Allowed(r: Relay, st: Step, how: Discipline) {
    && (how.oneEach && st.Connect? ==> forall q | At(r, q) :: r.peers[q].device != st.device)
    && (how.undivided ==> Undivided(r, st))
    && (how.answered && (st.AcquireRpc? || st.RenewRpc?) ==> st.replied)
    && (how.unreleased ==> !st.ReleaseRpc? && !st.Drain?)
  }

  lemma Go(run: Run, r: Relay, st: Step, how: Discipline) returns (run': Run, r': Relay)
    requires Reaches(run, r, how) && Enabled(r, st) && Allowed(r, st, how)
    ensures run' == Then(run, st) && Reaches(run', r', how) && r' == Apply(r, st)
  {
    run', r' := Then(run, st), Apply(r, st);
  }

  /** No connection but `p` is between a grant and its caching. */
  ghost predicate Quiet(r: Relay, p: Peer) {
    forall q | At(r, q) && q != p :: !InWindow(PcOf(r, q))
  }

  /** A step of `p` while everybody else is quiet; every grant is answered. */
  lemma GoQuietly(run: Run, r: Relay, st: Step, how: Discipline) returns (run': Run, r': Relay)
    requires Reaches(run, r, how) && Enabled(r, st) && !st.Tick? && !st.Connect? && Quiet(r, st.p)
    requires st.AcquireRpc? ==> st.replied
    requires !st.RenewRpc? && (how.unreleased ==> !st.ReleaseRpc? && !st.Drain?)
    ensures run' == Then(run, st) && Reaches(run', r', how) && r' == Apply(r, st) && Quiet(r', st.p)
  {
    run', r' := Go(run, r, st, how);
    forall q | q != st.p
      ensures At(r', q) ==> At(r, q) && r'.peers[q] == r.peers[q]
    {
      OthersStayPut(r, st, q);
    }
  }

  /** A session with its daemon on connection 0, watched by connections 1 and 2. */
  function Scene(now: int, rows: Rows, cached: map<SessionId, Entry>, c1: Conn, c2: Conn): Relay {
    Relay(TTL, now, rows, Reg(map["s" := 0], map["s" := {1, 2}], cached, map[1 := {"s"}, 2 := {"s"}]),
          map[0 := Conn("host", Serving), 1 := c1, 2 := c2])
  }

  /** The same after connection 1 has left the registry. */
  function SceneWithout1(rows: Rows, cached: map<SessionId, Entry>, c1: Conn, c2: Conn): Relay {
    Relay(TTL, 0, rows, Reg(map["s" := 0], map["s" := {2}], cached, map[2 := {"s"}]),
          map[0 := Conn("host", Serving), 1 := c1, 2 := c2])
  }

  /** The daemon's connection, with the session online. */
  lemma HostOnline(how: Discipline) returns (run: Run)
    ensures Reaches(run, Relay(TTL, 0, map[], EMPTY.(daemons := map["s" := 0]), map[0 := Conn("host", Serving)]), how)
  {
    run := Start(TTL, 0);
    var r := Init(TTL, 0);
    run, r := Go(run, r, Connect(0, "host"), how);
    run, r := Go(run, r, SessionOnline(0, "s"), how);
    assert r.peers == map[0 := Conn("host", Serving)];
  }

  lemma ThreeConnections(d1: DeviceId, d2: DeviceId, how: Discipline) returns (run: Run)
    requires how.oneEach ==> "host" != d1 && "host" != d2 && d1 != d2
    ensures Reaches(run, Scene(0, map[], map[], Conn(d1, Serving), Conn(d2, Serving))
                           .(reg := EMPTY.(daemons := map["s" := 0])), how)
  {
    run := HostOnline(how);
    var r := Relay(TTL, 0, map[], EMPTY.(daemons := map["s" := 0]), map[0 := Conn("host", Serving)]);
    run, r := Go(run, r, Connect(1, d1), how);
    run, r := Go(run, r, Connect(2, d2), how);
    assert r.peers == map[0 := Conn("host", Serving), 1 := Conn(d1, Serving), 2 := Conn(d2, Serving)];
  }

  lemma WatchAtOnce(run: Run, r: Relay, p: Peer, how: Discipline) returns (run': Run, r': Relay)
    requires Reaches(run, r, how) && Quiet(r, p)
    requires At(r, p) && PcOf(r, p).Serving? && "s" in r.reg.daemons
    ensures Reaches(run', r', how) && r' == r.(reg := AddWatcher(r.reg, "s", p)) && Quiet(r', p)
  {
    run', r' := GoQuietly(run, r, WatchBegin(p, "s"), how);
    run', r' := GoQuietly(run', r', WatchEnd(p), how);
    assert r'.peers == r.peers;
  }

  lemma BothWatch() returns (r: Reg)
    ensures r == AddWatcher(AddWatcher(EMPTY.(daemons := map["s" := 0]), "s", 1), "s", 2)
    ensures r == Scene(0, map[], map[], Conn("", Serving), Conn("", Serving)).reg
  {
    var r1 := AddWatcher(EMPTY.(daemons := map["s" := 0]), "s", 1);
    assert r1.watchers["s"] == {1} && r1.watching[1] == {"s"};
    assert r1 == Reg(map["s" := 0], map["s" := {1}], map[], map[1 := {"s"}]);
    r := AddWatcher(r1, "s", 2);
    assert r.watchers["s"] == {1, 2} && r.watching[2] == {"s"};
    assert r.watchers == map["s" := {1, 2}];
    assert r.watching == map[1 := {"s"}, 2 := {"s"}];
  }

  /** The scene is set: nobody controls the session yet. */
  lemma TwoWatchers(d1: DeviceId, d2: DeviceId, how: Discipline) returns (run: Run)
    requires how.oneEach ==> "host" != d1 && "host" != d2 && d1 != d2
    ensures Reaches(run, Scene(0, map[], map[], Conn(d1, Serving), Conn(d2, Serving)), how)
  {
    run := ThreeConnections(d1, d2, how);
    var r := Scene(0, map[], map[], Conn(d1, Serving), Conn(d2, Serving)).(reg := EMPTY.(daemons := map["s" := 0]));
    run, r := WatchAtOnce(run, r, 1, how);
    run, r := WatchAtOnce(run, r, 2, how);
    var reg := BothWatch();
  }

  /** Check, grant and caching of an acquire, one right after the other. */
  lemma AcquireAtOnce(run: Run, r: Relay, p: Peer, how: Discipline) returns (run': Run, r': Relay)
    requires Reaches(run, r, how) && Quiet(r, p)
    requires At(r, p) && PcOf(r, p).Serving?
    requires IsWatching(r.reg, "s", p) && "s" in r.reg.daemons
    requires "s" in r.rows ==> r.rows["s"].device == r.peers[p].device
    ensures Reaches(run', r', how) && Quiet(r', p)
    ensures var version := if "s" in r.rows then r.rows["s"].version + 1 else 1;
            var row := Lease(r.peers[p].device, version, r.now, r.now + r.ttl);
            r' == r.(rows := r.rows["s" := row],
                     reg := SetController(r.reg, "s", p, GrantOf(row), r.peers[p].device))
  {
    run', r' := GoQuietly(run, r, AcquireBegin(p, "s"), how);
    run', r' := GoQuietly(run', r', AcquireRpc(p, r.now, true), how);
    run', r' := GoQuietly(run', r', AcquireInstall(p), how);
    assert r'.peers == r.peers;
  }

  /** Device "a" is granted the session at time 0, and the clock reaches the expiry. */
  lemma HeldToTheEnd() returns (run: Run)
    ensures Reaches(run, Scene(TTL, map["s" := Lease("a", 1, 0, TTL)], map["s" := Entry(1, "s", 1, TTL, "a")],
                               Conn("a", Serving), Conn("b", Serving)), ONE_EACH)
  {
    run := TwoWatchers("a", "b", ONE_EACH);
    var r := Scene(0, map[], map[], Conn("a", Serving), Conn("b", Serving));
    run, r := AcquireAtOnce(run, r, 1, ONE_EACH);
    run, r := Go(run, r, Tick(TTL), ONE_EACH);
  }

  /** Device "b" is granted the session at that instant; its grant is on its way to the cache. */
  lemma TakenAtTheEnd() returns (run: Run)
    ensures Reaches(run, Scene(TTL, map["s" := Lease("b", 2, TTL, 2 * TTL)], map["s" := Entry(1, "s", 1, TTL, "a")],
                               Conn("a", Serving), Conn("b", AcquireGranted("s", Grant(2, 2 * TTL)))), ONE_EACH)
  {
    run := HeldToTheEnd();
    var r := Scene(TTL, map["s" := Lease("a", 1, 0, TTL)], map["s" := Entry(1, "s", 1, TTL, "a")],
                   Conn("a", Serving), Conn("b", Serving));
    run, r := Go(run, r, AcquireBegin(2, "s"), ONE_EACH);
    run, r := Go(run, r, AcquireRpc(2, TTL, true), ONE_EACH);
    assert r.rows == map["s" := Lease("b", 2, TTL, 2 * TTL)];
    assert r.peers == map[0 := Conn("host", Serving), 1 := Conn("a", Serving),
                          2 := Conn("b", AcquireGranted("s", Grant(2, 2 * TTL)))];
  }

  /** At the very instant of the cached expiry a frame can still be forwarded although the row has just
      passed to another device whose grant is not cached yet. Everything but the caching of that grant in one go is as
      the safety lemmas want it. */
  lemma ExpiryInstantIsShared() returns (run: Run, st: Step)
    ensures Legal(run) && OneConnectionPerDevice(run) && Forwards(StateOf(run), st)
    ensures NeverAliased(run) && NeverOrphaned(run) && run.Then? && run.step.InputBegin? && run.step.p == st.p
    ensures var r := StateOf(run); var pc := PcOf(r, st.p);
            && r.now == pc.seen.expiresAt
            && pc.session in r.rows && r.rows[pc.session].device != r.peers[st.p].device
  {
    run := TakenAtTheEnd();
    var r := Scene(TTL, map["s" := Lease("b", 2, TTL, 2 * TTL)], map["s" := Entry(1, "s", 1, TTL, "a")],
                   Conn("a", Serving), Conn("b", AcquireGranted("s", Grant(2, 2 * TTL))));
    run, r := Go(run, r, InputBegin(1, "s"), ONE_EACH);
    st := InputDecide(1, true, 0);
    UnreleasedNeverAliases(run);
    AnsweredNeverOrphans(run);
  }

  const FIRST: Lease := Lease("a", 1, 0, TTL)

  lemma FirstIsGranted(how: Discipline) returns (run: Run)
    requires !how.oneEach
    ensures Reaches(run, Scene(0, map["s" := FIRST], map["s" := Entry(1, "s", 1, TTL, "a")],
                               Conn("a", Serving), Conn("a", Serving)), how)
  {
    run := TwoWatchers("a", "a", how);
    var r := Scene(0, map[], map[], Conn("a", Serving), Conn("a", Serving));
    run, r := AcquireAtOnce(run, r, 1, how);
  }

  /** Connection 1 is granted the session, drops off, and has its release still to send. */
  lemma LeaveWithReleasePending() returns (run: Run)
    ensures Reaches(run, SceneWithout1(map["s" := FIRST], map[], Conn("a", Draining([Entry(1, "s", 1, TTL, "a")])),
                                       Conn("a", Serving)), AT_ONCE)
  {
    run := FirstIsGranted(AT_ONCE);
    var e := Entry(1, "s", 1, TTL, "a");
    var r := Scene(0, map["s" := FIRST], map["s" := e], Conn("a", Serving), Conn("a", Serving));
    run, r := GoQuietly(run, r, Fail(1), AT_ONCE);
    run, r := GoQuietly(run, r, Remove(1, [e]), AT_ONCE);
    assert r.peers == map[0 := Conn("host", Serving), 1 := Conn("a", Draining([e])), 2 := Conn("a", Serving)];
    RemoveFirst(e);
  }

  lemma RemoveFirst(e: Entry)
    requires e.peer == 1
    ensures RemovePeer(Scene(0, map[], map["s" := e], Conn("", Serving), Conn("", Serving)).reg, 1)
            == SceneWithout1(map[], map[], Conn("", Serving), Conn("", Serving)).reg
  {
    var r := Scene(0, map[], map["s" := e], Conn("", Serving), Conn("", Serving)).reg;
    assert {1, 2} - {1} == {2};
    assert WithoutWatcher(r.watchers, {"s"}, 1) == map["s" := {2}];
  }

  /** Connection 2 takes the session over: the same device, the next version. */
  lemma TakenOver() returns (run: Run)
    ensures Reaches(run, SceneWithout1(map["s" := FIRST.(version := 2)], map["s" := Entry(2, "s", 2, TTL, "a")],
                                       Conn("a", Draining([Entry(1, "s", 1, TTL, "a")])), Conn("a", Serving)), AT_ONCE)
  {
    run := LeaveWithReleasePending();
    var r := SceneWithout1(map["s" := FIRST], map[], Conn("a", Draining([Entry(1, "s", 1, TTL, "a")])),
                           Conn("a", Serving));
    run, r := AcquireAtOnce(run, r, 2, AT_ONCE);
  }

  /** Connection 2 releases: the row is gone. */
  lemma AcquireThenRelease() returns (run: Run)
    ensures Reaches(run, SceneWithout1(map[], map[], Conn("a", Draining([Entry(1, "s", 1, TTL, "a")])),
                                       Conn("a", Serving)), AT_ONCE)
  {
    run := TakenOver();
    var r := SceneWithout1(map["s" := FIRST.(version := 2)], map["s" := Entry(2, "s", 2, TTL, "a")],
                           Conn("a", Draining([Entry(1, "s", 1, TTL, "a")])), Conn("a", Serving));
    var peers := r.peers;
    run, r := GoQuietly(run, r, ReleaseBegin(2, "s", 2), AT_ONCE);
    run, r := GoQuietly(run, r, ReleaseRpc(2, true), AT_ONCE);
    run, r := GoQuietly(run, r, Clear(2), AT_ONCE);
    assert r.peers == peers;
    assert r.rows == map[] && r.reg.controllers == map[];
  }

  /** Connection 2 acquires again, at version 1 again. */
  lemma AcquiredAgain() returns (run: Run)
    ensures Reaches(run, SceneWithout1(map["s" := FIRST], map["s" := Entry(2, "s", 1, TTL, "a")],
                                       Conn("a", Draining([Entry(1, "s", 1, TTL, "a")])), Conn("a", Serving)), AT_ONCE)
  {
    run := AcquireThenRelease();
    var r := SceneWithout1(map[], map[], Conn("a", Draining([Entry(1, "s", 1, TTL, "a")])), Conn("a", Serving));
    run, r := AcquireAtOnce(run, r, 2, AT_ONCE);
  }

  /** The pending release of connection 1 deletes the row of connection 2. */
  lemma ReleasedBehindItsBack() returns (run: Run)
    ensures Reaches(run, SceneWithout1(map[], map["s" := Entry(2, "s", 1, TTL, "a")], Conn("a", Draining([])),
                                       Conn("a", Serving)), AT_ONCE)
  {
    run := AcquiredAgain();
    var e := Entry(1, "s", 1, TTL, "a");
    var r := SceneWithout1(map["s" := FIRST], map["s" := Entry(2, "s", 1, TTL, "a")],
                           Conn("a", Draining([e])), Conn("a", Serving));
    run, r := Go(run, r, Drain(1, true), AT_ONCE);
    assert r.rows == map[] && [e][1..] == [];
    assert r.peers == map[0 := Conn("host", Serving), 1 := Conn("a", Draining([])), 2 := Conn("a", Serving)];
  }

  /** With two connections of one device, the release that follows the disconnect of the first can delete
      the row granted to the second, which goes on forwarding input without any lease in the table. */
  lemma AliasedReleaseIsReachable() returns (run: Run, st: Step)
    ensures Legal(run) && UndividedRun(run) && NeverOrphaned(run) && Forwards(StateOf(run), st)
    ensures run.Then? && run.step.InputBegin? && run.step.p == st.p
    ensures var r := StateOf(run); var pc := PcOf(r, st.p);
            r.now < pc.seen.expiresAt && pc.session !in r.rows
  {
    run := ReleasedBehindItsBack();
    var r := SceneWithout1(map[], map["s" := Entry(2, "s", 1, TTL, "a")], Conn("a", Draining([])), Conn("a", Serving));
    run, r := Go(run, r, InputBegin(2, "s"), AT_ONCE);
    st := InputDecide(2, true, 1);
    AnsweredNeverOrphans(run);
  }

  // ----- a version behind

  /** Connection 2 of the same device has taken the session over in the table; connection 1 is still cached. */
  lemma TakenOverUnanswered() returns (run: Run)
    ensures Reaches(run, Scene(0, map["s" := FIRST.(version := 2)], map["s" := Entry(1, "s", 1, TTL, "a")],
                               Conn("a", Serving), Conn("a", Closing)), UNANSWERED)
  {
    run := FirstIsGranted(UNANSWERED);
    var r := Scene(0, map["s" := FIRST], map["s" := Entry(1, "s", 1, TTL, "a")],
                   Conn("a", Serving), Conn("a", Serving));
    run, r := Go(run, r, AcquireBegin(2, "s"), UNANSWERED);
    run, r := Go(run, r, AcquireRpc(2, 0, false), UNANSWERED);
    assert r.rows == map["s" := FIRST.(version := 2)];
    assert r.peers == map[0 := Conn("host", Serving), 1 := Conn("a", Serving), 2 := Conn("a", Closing)];
  }

  /** When the answer to a grant is lost, another connection of the device goes on forwarding at the version
      before, read and decided on in one go. */
  lemma OrphanedGrantIsReachable() returns (run: Run, st: Step)
    ensures Legal(run) && UndividedRun(run) && NeverAliased(run) && Forwards(StateOf(run), st)
    ensures run.Then? && run.step.InputBegin? && run.step.p == st.p
    ensures var r := StateOf(run); var pc := PcOf(r, st.p);
            r.now < pc.seen.expiresAt && pc.session in r.rows && r.rows[pc.session].version != pc.seen.version
  {
    run := TakenOverUnanswered();
    var r := Scene(0, map["s" := FIRST.(version := 2)], map["s" := Entry(1, "s", 1, TTL, "a")],
                   Conn("a", Serving), Conn("a", Closing));
    run, r := Go(run, r, InputBegin(1, "s"), UNANSWERED);
    st := InputDecide(1, true, 1);
    UnreleasedNeverAliases(run);
  }

  /** Connection 1 has read its cached grant for an input frame and not yet decided. */
  lemma ReadForInput() returns (run: Run)
    ensures Reaches(run, Scene(0, map["s" := FIRST], map["s" := Entry(1, "s", 1, TTL, "a")],
                               Conn("a", InputSeen("s", Entry(1, "s", 1, TTL, "a"))), Conn("a", Serving)), UNRELEASED)
  {
    run := FirstIsGranted(UNRELEASED);
    var r := Scene(0, map["s" := FIRST], map["s" := Entry(1, "s", 1, TTL, "a")],
                   Conn("a", Serving), Conn("a", Serving));
    run, r := Go(run, r, InputBegin(1, "s"), UNRELEASED);
    assert r.peers == map[0 := Conn("host", Serving), 1 := Conn("a", InputSeen("s", Entry(1, "s", 1, TTL, "a"))),
                          2 := Conn("a", Serving)];
  }

  /** Between reading the cached grant and deciding on the frame, another connection of the device can be granted
      and cached the next version. There is no release in the run and no lost answer. */
  lemma OvertakenReaderIsReachable() returns (run: Run, st: Step)
    ensures Legal(run) && UndividedRun(run) && NoReleaseIn(run) && Answered(run) && Forwards(StateOf(run), st)
    ensures var r := StateOf(run); var pc := PcOf(r, st.p);
            r.now < pc.seen.expiresAt && pc.session in r.rows && r.rows[pc.session].version != pc.seen.version
  {
    run := ReadForInput();
    var r := Scene(0, map["s" := FIRST], map["s" := Entry(1, "s", 1, TTL, "a")],
                   Conn("a", InputSeen("s", Entry(1, "s", 1, TTL, "a"))), Conn("a", Serving));
    run, r := AcquireAtOnce(run, r, 2, UNRELEASED);
    st := InputDecide(1, true, 1);
  }

  // ----- the boundary, exactly

  /** A frame decided on `slack` before its cached expiry, in a run with one connection per device. */
  ghost predicate ForwardsEarly(run: Run, st: Step, slack: nat) {
    && Legal(run) && OneConnectionPerDevice(run) && Forwards(StateOf(run), st)
    && PcOf(StateOf(run), st.p).seen.expiresAt - StateOf(run).now == slack
  }

  ghost predicate SenderHoldsTheRow(run: Run, st: Step)
    requires Legal(run) && Forwards(StateOf(run), st)
  {
    var r := StateOf(run); var pc := PcOf(r, st.p);
    Backed(r.rows, r.peers[st.p].device, pc.session, pc.seen.version, pc.seen.expiresAt)
  }

  /** With one connection per device and any delays, every frame forwarded `slack` before its cached expiry comes
      from the holder of the row if and only if `slack` is not zero. */
  lemma BackedExactlyBeforeTheExpiry(slack: nat)
    ensures (forall run, st | ForwardsEarly(run, st, slack) :: SenderHoldsTheRow(run, st)) <==> slack > 0
  {
    if slack > 0 {
      forall run, st | ForwardsEarly(run, st, slack)
        ensures SenderHoldsTheRow(run, st)
      {
        ForwardedInputHoldsTheLease(run, st);
      }
    } else {
      var run, st := ExpiryInstantIsShared();
      assert ForwardsEarly(run, st, 0) && !SenderHoldsTheRow(run, st);
    }
  }
}
