/**
  The relay's connection registry: four maps that point at each other. `Reg` is the registry as a
  value with one function per critical section; the class keeps the four maps and changes them in
  place; the lemmas say which functions keep the maps consistent.
 */
module Registry {
  import opened Base
  import opened LeaseTable

  /** A connection. Connections are never reused. */
  type Peer = nat

  datatype Grant = Grant(version: int, expiresAt: int)

  /** A cached grant. `token` is the access token it was granted under, identified with its device. */
  datatype Entry = Entry(peer: Peer, session: SessionId, version: int, expiresAt: int, token: DeviceId)

  datatype Reg = Reg(
    daemons: map<SessionId, Peer>,
    watchers: map<SessionId, set<Peer>>,
    controllers: map<SessionId, Entry>,
    watching: map<Peer, set<SessionId>>)

  const EMPTY: Reg := Reg(map[], map[], map[], map[])

  function WatchersOf(r: Reg, s: SessionId): set<Peer> {
    if s in r.watchers then r.watchers[s] else {}
  }

  function WatchedBy(r: Reg, p: Peer): set<SessionId> {
    if p in r.watching then r.watching[p] else {}
  }

  predicate IsWatching(r: Reg, s: SessionId, p: Peer) {
    s in WatchedBy(r, p)
  }

  function SetDaemon(r: Reg, s: SessionId, p: Peer): Reg {
    r.(daemons := r.daemons[s := p])
  }

  function AddWatcher(r: Reg, s: SessionId, p: Peer): Reg {
    r.(watchers := r.watchers[s := WatchersOf(r, s) + {p}],
       watching := r.watching[p := WatchedBy(r, p) + {s}])
  }

  function SetController(r: Reg, s: SessionId, p: Peer, g: Grant, token: DeviceId): Reg {
    r.(controllers := r.controllers[s := Entry(p, s, g.version, g.expiresAt, token)])
  }

  function ClearController(r: Reg, s: SessionId, p: Peer): Reg {
    if s in r.controllers && r.controllers[s].peer == p then r.(controllers := r.controllers - {s}) else r
  }

  function WithoutDaemon(daemons: map<SessionId, Peer>, p: Peer): map<SessionId, Peer> {
    map s | s in daemons && daemons[s] != p :: daemons[s]
  }

  /** `p` leaves the watcher sets of `sessions`; a set that becomes empty goes with it. */
  function WithoutWatcher(watchers: map<SessionId, set<Peer>>, sessions: set<SessionId>, p: Peer)
    : map<SessionId, set<Peer>>
  {
    map s | s in watchers && (s in sessions ==> watchers[s] - {p} != {}) ::
      if s in sessions then watchers[s] - {p} else watchers[s]
  }

  function WithoutController(controllers: map<SessionId, Entry>, p: Peer): map<SessionId, Entry> {
    map s | s in controllers && controllers[s].peer != p :: controllers[s]
  }

  /** Taking `p` off one more session takes it off that session's watcher set, if there is one. */
  lemma WithoutOneMoreWatcher(watchers: map<SessionId, set<Peer>>, done: set<SessionId>, s: SessionId, p: Peer)
    requires s !in done
    ensures var before, after := WithoutWatcher(watchers, done, p), WithoutWatcher(watchers, done + {s}, p);
            && (s in before <==> s in watchers) && (s in before ==> before[s] == watchers[s])
            && after == if s !in watchers || watchers[s] - {p} == {} then before - {s}
                        else before[s := watchers[s] - {p}]
  {
  }

  /** What is left when a peer has gone: its daemons, its watches and its cached grants are out. */
  function RemovePeer(r: Reg, p: Peer): Reg {
    Reg(WithoutDaemon(r.daemons, p),
        WithoutWatcher(r.watchers, WatchedBy(r, p), p),
        WithoutController(r.controllers, p),
        r.watching - {p})
  }

  /** `released` lists the cached grants of `p`, each once, in no particular order. */
  ghost predicate IsReleaseList(controllers: map<SessionId, Entry>, p: Peer, released: seq<Entry>) {
    && (forall e | e in released :: e.peer == p && e.session in controllers && controllers[e.session] == e)
    && (forall s | s in controllers && controllers[s].peer == p :: controllers[s] in released)
    && (forall i, j | 0 <= i < j < |released| :: released[i] != released[j])
  }

  // ----- what each critical section changes, entry by entry

  lemma SetDaemonExactly(r: Reg, s: SessionId, p: Peer)
    ensures var r' := SetDaemon(r, s, p);
            && s in r'.daemons && r'.daemons[s] == p
            && (forall x | x != s ::
                  (x in r'.daemons <==> x in r.daemons) && (x in r.daemons ==> r'.daemons[x] == r.daemons[x]))
            && r'.watchers == r.watchers && r'.controllers == r.controllers && r'.watching == r.watching
  {
  }

  /** Exactly one pair is added to the watches, and daemons and cached grants stay. */
  lemma AddWatcherExactly(r: Reg, s: SessionId, p: Peer, x: SessionId, q: Peer)
    ensures var r' := AddWatcher(r, s, p);
            && ((x in r'.watchers && q in r'.watchers[x])
                <==> (x in r.watchers && q in r.watchers[x]) || (x == s && q == p))
            && ((q in r'.watching && x in r'.watching[q])
                <==> (q in r.watching && x in r.watching[q]) || (x == s && q == p))
            && r'.daemons == r.daemons && r'.controllers == r.controllers
  {
  }

  lemma SetControllerExactly(r: Reg, s: SessionId, p: Peer, g: Grant, token: DeviceId, x: SessionId)
    ensures var r' := SetController(r, s, p, g, token);
            && s in r'.controllers && r'.controllers[s] == Entry(p, s, g.version, g.expiresAt, token)
            && (x != s ==> (x in r'.controllers <==> x in r.controllers)
                           && (x in r.controllers ==> r'.controllers[x] == r.controllers[x]))
            && r'.daemons == r.daemons && r'.watchers == r.watchers && r'.watching == r.watching
  {
  }

  lemma ClearControllerExactly(r: Reg, s: SessionId, p: Peer, x: SessionId)
    ensures var r' := ClearController(r, s, p);
            && (x in r'.controllers <==> x in r.controllers && !(x == s && r.controllers[x].peer == p))
            && (x in r'.controllers ==> r'.controllers[x] == r.controllers[x])
            && r'.daemons == r.daemons && r'.watchers == r.watchers && r'.watching == r.watching
  {
  }

  /** Whoever stays keeps everything: its daemons, its watches and its cached grants; whoever leaves keeps nothing.
      No watcher set is left empty that was not so before. */
  lemma RemovePeerExactly(r: Reg, p: Peer, s: SessionId, q: Peer)
    requires Consistent(r)
    ensures var r' := RemovePeer(r, p);
            && ((s in r'.daemons && r'.daemons[s] == q) <==> (s in r.daemons && r.daemons[s] == q && q != p))
            && ((s in r'.controllers && r'.controllers[s].peer == q)
                <==> (s in r.controllers && r.controllers[s].peer == q && q != p))
            && (s in r'.controllers ==> r'.controllers[s] == r.controllers[s])
            && ((s in r'.watchers && q in r'.watchers[s]) <==> (s in r.watchers && q in r.watchers[s] && q != p))
            && ((q in r'.watching && s in r'.watching[q]) <==> (q in r.watching && s in r.watching[q] && q != p))
  {
    assert p in WatchersOf(r, s) <==> s in WatchedBy(r, p);
  }

  // ----- consistency

  /** The two watch maps mirror each other, hold no empty set, every cached grant is filed under
      its own session, and its peer watches that session. */
  ghost predicate Consistent(r: Reg) {
    && (forall s, p :: p in WatchersOf(r, s) <==> s in WatchedBy(r, p))
    && (forall s | s in r.watchers :: r.watchers[s] != {})
    && (forall p | p in r.watching :: r.watching[p] != {})
    && (forall s | s in r.controllers :: r.controllers[s].session == s && IsWatching(r, s, r.controllers[s].peer))
  }

  /** Nobody outside `live` is mentioned anywhere. */
  ghost predicate MentionsOnly(r: Reg, live: set<Peer>) {
    && (forall s | s in r.daemons :: r.daemons[s] in live)
    && r.watching.Keys <= live
    && (forall s | s in r.controllers :: r.controllers[s].peer in live)
  }

  lemma SetDaemonKeepsConsistent(r: Reg, s: SessionId, p: Peer)
    requires Consistent(r)
    ensures Consistent(SetDaemon(r, s, p))
  {
    var r' := SetDaemon(r, s, p);
    assert forall s' :: WatchersOf(r', s') == WatchersOf(r, s');
    assert forall p' :: WatchedBy(r', p') == WatchedBy(r, p');
  }

  lemma AddWatcherKeepsConsistent(r: Reg, s: SessionId, p: Peer)
    requires Consistent(r)
    ensures Consistent(AddWatcher(r, s, p))
    ensures IsWatching(AddWatcher(r, s, p), s, p)
    ensures forall s', p' | IsWatching(r, s', p') :: IsWatching(AddWatcher(r, s, p), s', p')
  {
    var r' := AddWatcher(r, s, p);
    forall s', p'
      ensures p' in WatchersOf(r', s') <==> s' in WatchedBy(r', p')
    {
      assert p' in WatchersOf(r, s') <==> s' in WatchedBy(r, p');
      assert p' in WatchersOf(r', s') <==> p' in WatchersOf(r, s') || (s' == s && p' == p);
      assert s' in WatchedBy(r', p') <==> s' in WatchedBy(r, p') || (s' == s && p' == p);
    }
  }

  lemma SetControllerKeepsConsistent(r: Reg, s: SessionId, p: Peer, g: Grant, token: DeviceId)
    requires Consistent(r)
    ensures Consistent(SetController(r, s, p, g, token)) <==> IsWatching(r, s, p)
  {
    var r' := SetController(r, s, p, g, token);
    assert r'.controllers[s].peer == p;
    assert forall s' :: WatchersOf(r', s') == WatchersOf(r, s');
    assert forall p' :: WatchedBy(r', p') == WatchedBy(r, p');
  }

  lemma ClearControllerKeepsConsistent(r: Reg, s: SessionId, p: Peer)
    requires Consistent(r)
    ensures Consistent(ClearController(r, s, p))
    ensures forall x | x in r.controllers ::
              if x == s && r.controllers[x].peer == p then x !in ClearController(r, s, p).controllers
              else x in ClearController(r, s, p).controllers
                   && ClearController(r, s, p).controllers[x] == r.controllers[x]
  {
    var r' := ClearController(r, s, p);
    assert forall s' :: WatchersOf(r', s') == WatchersOf(r, s');
    assert forall p' :: WatchedBy(r', p') == WatchedBy(r, p');
  }

  lemma RemovePeerKeepsConsistent(r: Reg, p: Peer, live: set<Peer>)
    requires Consistent(r) && MentionsOnly(r, live)
    ensures Consistent(RemovePeer(r, p)) && MentionsOnly(RemovePeer(r, p), live - {p})
    ensures forall s, p' | p' != p :: IsWatching(RemovePeer(r, p), s, p') <==> IsWatching(r, s, p')
  {
    var r' := RemovePeer(r, p);
    assert forall p' | p' != p :: WatchedBy(r', p') == WatchedBy(r, p');
    assert WatchedBy(r', p) == {};
    forall s
      ensures WatchersOf(r', s) == WatchersOf(r, s) - {p}
    {
      assert p in WatchersOf(r, s) <==> s in WatchedBy(r, p);
    }
    forall s, p'
      ensures p' in WatchersOf(r', s) <==> s in WatchedBy(r', p')
    {
      assert p' in WatchersOf(r, s) <==> s in WatchedBy(r, p');
    }
  }

  /** When everyone who ever registered has been removed, nothing is left in the registry. */
  lemma NobodyLeftMeansEmpty(r: Reg)
    requires Consistent(r) && MentionsOnly(r, {})
    ensures r == EMPTY
  {
    assert forall s | s in r.watchers :: WatchersOf(r, s) != {};
    assert r.watching.Keys == {};
    forall s
      ensures WatchersOf(r, s) == {}
    {
      forall p
        ensures p !in WatchersOf(r, s)
      {
        assert WatchedBy(r, p) == {};
        assert p in WatchersOf(r, s) <==> s in WatchedBy(r, p);
      }
    }
  }

  // ----- the registry in place

  class ConnectionRegistry {
    var daemons: map<SessionId, Peer>
    var watchers: map<SessionId, set<Peer>>
    var controllers: map<SessionId, Entry>
    var watching: map<Peer, set<SessionId>>

    function Contents(): Reg
      reads this
    {
      Reg(daemons, watchers, controllers, watching)
    }

    constructor ()
      ensures Contents() == EMPTY
      ensures Consistent(Contents())
    {
      daemons, watchers, controllers, watching := map[], map[], map[], map[];
    }

    method SetDaemonPeer(s: SessionId, p: Peer)
      modifies this
      ensures Contents() == SetDaemon(old(Contents()), s, p)
    {
      daemons := daemons[s := p];
    }

    method AddWatcherPeer(s: SessionId, p: Peer)
      modifies this
      ensures Contents() == AddWatcher(old(Contents()), s, p)
    {
      if s !in watchers {
        watchers := watchers[s := {}];
      }
      watchers := watchers[s := watchers[s] + {p}];
      if p !in watching {
        watching := watching[p := {}];
      }
      watching := watching[p := watching[p] + {s}];
    }

    method SetControllerPeer(s: SessionId, p: Peer, g: Grant, token: DeviceId)
      modifies this
      ensures Contents() == SetController(old(Contents()), s, p, g, token)
    {
      controllers := controllers[s := Entry(p, s, g.version, g.expiresAt, token)];
    }

    method ClearControllerPeer(s: SessionId, p: Peer)
      modifies this
      ensures Contents() == ClearController(old(Contents()), s, p)
    {
      if s !in controllers || controllers[s].peer != p {
        return;
      }
      controllers := controllers - {s};
    }

    /** The watchers of a session, each once. */
    method WatchersFor(s: SessionId) returns (result: seq<Peer>)
      ensures forall p :: p in result <==> s in watchers && p in watchers[s]
      ensures forall i, j | 0 <= i < j < |result| :: result[i] != result[j]
    {
      result := [];
      if s !in watchers {
        return;
      }
      var todo := watchers[s];
      while todo != {}
        invariant todo <= watchers[s]
        invariant forall p :: p in result <==> p in watchers[s] - todo
        invariant forall i, j | 0 <= i < j < |result| :: result[i] != result[j]
        decreases |todo|
      {
        var p :| p in todo;
        result := result + [p];
        todo := todo - {p};
      }
    }

    /** Purges every entry pointing at `p` and returns the cached grants it held. */
    method RemovePeerEntries(p: Peer) returns (released: seq<Entry>)
      requires forall s | s in controllers :: controllers[s].session == s
      modifies this
      ensures Contents() == RemovePeer(old(Contents()), p)
      ensures IsReleaseList(old(controllers), p, released)
    {
      RemoveDaemons(p);
      RemoveWatches(p);
      released := RemoveControllers(p);
    }

    method RemoveDaemons(p: Peer)
      modifies this`daemons
      ensures daemons == WithoutDaemon(old(daemons), p)
    {
      ghost var before := daemons;
      var todo := daemons.Keys;
      while todo != {}
        invariant todo <= before.Keys
        invariant daemons == map s | s in before && (s in todo || before[s] != p) :: before[s]
        decreases |todo|
      {
        var s :| s in todo;
        if daemons[s] == p {
          daemons := daemons - {s};
        }
        todo := todo - {s};
      }
    }

    method DropWatcher(s: SessionId, p: Peer)
      modifies this`watchers
      ensures var left := WatchersOf(old(Contents()), s) - {p};
              watchers == if left == {} then old(watchers) - {s} else old(watchers)[s := left]
    {
      var left := {};
      if s in watchers {
        left := watchers[s] - {p};
        watchers := watchers[s := left];
      }
      if left == {} {
        watchers := watchers - {s};
      }
    }

    method RemoveWatches(p: Peer)
      modifies this`watchers, this`watching
      ensures watchers == WithoutWatcher(old(watchers), if p in old(watching) then old(watching)[p] else {}, p)
      ensures watching == old(watching) - {p}
    {
      ghost var before := watchers;
      var todo := if p in watching then watching[p] else {};
      ghost var all := todo;
      ghost var done: set<SessionId> := {};
      while todo != {}
        invariant watching == old(watching)
        invariant todo == all - done && done <= all
        invariant watchers == WithoutWatcher(before, done, p)
        decreases |todo|
      {
        var s :| s in todo;
        WithoutOneMoreWatcher(before, done, s, p);
        DropWatcher(s, p);
        done := done + {s};
        todo := todo - {s};
      }
      watching := watching - {p};
    }

    method RemoveControllers(p: Peer) returns (released: seq<Entry>)
      requires forall s | s in controllers :: controllers[s].session == s
      modifies this`controllers
      ensures controllers == WithoutController(old(controllers), p)
      ensures IsReleaseList(old(controllers), p, released)
    {
      ghost var before := controllers;
      released := [];
      var todo := controllers.Keys;
      while todo != {}
        invariant todo <= before.Keys
        invariant controllers == map s | s in before && (s in todo || before[s].peer != p) :: before[s]
        invariant forall e | e in released ::
                    e.peer == p && e.session in before && e.session !in todo && before[e.session] == e
        invariant forall s | s in before && s !in todo && before[s].peer == p :: before[s] in released
        invariant forall i, j | 0 <= i < j < |released| :: released[i] != released[j]
        decreases |todo|
      {
        var s :| s in todo;
        if controllers[s].peer == p {
          assert before[s] !in released;
          released := released + [controllers[s]];
          controllers := controllers - {s};
        }
        todo := todo - {s};
      }
    }
  }
}
