/**
  The renewal chain run by its participants: the viewer's timer, the relay's handler with table and cache, and the
  viewer's handling of the answer, in place. Between two renewals the viewer types and other devices try to acquire.
  Together they do what `Renewed` says, so that the statements of Renewal are statements about them.
 */
module RenewalInPlace {
  import opened Base
  import opened LeaseTable
  import opened Registry
  import opened Renewal
  import LeaseService
  import RelaySafety
  import RelayProtocol
  import RelaySimulation
  import RelayServer
  import ViewerControl

  /** The viewer is granted the link's version and has its timer set. */
  ghost predicate ViewerAt(viewer: ViewerControl.Control, l: Link)
    reads viewer
  {
    && viewer.Valid() && viewer.state.Granted?
    && viewer.leaseVersion == Some(l.version) && viewer.renewAt == Some(l.renewAt)
    && viewer.session == l.entry.session
  }

  /** The relay has the link's entry cached for connection `p`. */
  ghost predicate RelayAt(server: RelayServer.Server, p: Peer, l: Link)
    reads server, server.reg, server.table
  {
    && server.Valid() && server.ttl == TTL && server.Ready(p, l.entry.token)
    && l.entry.session in server.reg.controllers && server.reg.controllers[l.entry.session] == l.entry
    && l.entry.session != "" && l.entry.peer == p && l.entry.version == l.version > 0
  }

  // ----- between two renewals

  /** What the relay handles between two renewals: an input frame of the holder, or an attempt of another device, on
      connection `q`, to acquire this or another session; `at` is the clock reading it is decided by. */
  datatype Event =
    | Typed(at: int, raw: bool, hv: int)
    | Rival(at: int, q: Peer, device: DeviceId, session: SessionId)

  function Frames(events: seq<Event>): seq<int> {
    if events == [] then []
    else FrameOf(events[0]) + Frames(events[1..])
  }

  function FrameOf(e: Event): seq<int> {
    if e.Typed? then [e.at] else []
  }

  /** Frames are decided on by the clock of the relay, which does not run backwards. */
  predicate InOrder(now: int, events: seq<Event>)
    decreases |events|
  {
    events == [] ||
    ((events[0].Typed? ==> events[0].at >= now)
     && InOrder(RelaySimulation.Latest(now, events[0].at), events[1..]))
  }

  lemma {:induction false} FramesWithin(now: int, events: seq<Event>, end: int)
    requires InOrder(now, events) && forall e | e in events :: e.at <= end
    ensures forall f | f in Frames(events) :: now <= f <= end
    decreases |events|
  {
    if events != [] {
      assert events[0] in events;
      FramesWithin(RelaySimulation.Latest(now, events[0].at), events[1..], end);
    }
  }

  /** Every rival is a viewer of another device, ready for its next message. */
  predicate Guests(peers: map<Peer, RelayProtocol.Conn>, events: seq<Event>, token: DeviceId) {
    forall e | e in events && e.Rival? ::
      e.q in peers && peers[e.q] == RelayProtocol.Conn(e.device, RelayProtocol.Serving) && e.device != token
  }

  ghost function PeersOf(server: RelayServer.Server): map<Peer, RelayProtocol.Conn>
    requires RelayProtocol.Legal(server.run)
    reads server
  {
    RelayProtocol.StateOf(server.run).peers
  }

  /** Statements of other devices by clocks up to `end`. */
  ghost predicate Foreign(others: seq<Statement>, d: DeviceId, end: int) {
    forall k | 0 <= k < |others| ::
      !others[k].DeleteBySession? && others[k].device != d && (Clocked(others[k]) ==> others[k].now <= end)
  }

  ghost predicate TriedAfter(others: seq<Statement>, t: int) {
    exists k :: 0 <= k < |others| && Clocked(others[k]) && others[k].now >= t
  }

  /** The grant cached for session `s` is connection `p`'s. */
  predicate CachedFor(controllers: map<SessionId, Entry>, s: SessionId, p: Peer) {
    s in controllers && controllers[s].peer == p
  }

  /** Either the link's entry is still cached and no frame was late, or it is gone for one of two reasons. */
  ghost predicate CacheTells(
    controllers: map<SessionId, Entry>, p: Peer, l: Link, others: seq<Statement>, frames: seq<int>)
  {
    if CachedFor(controllers, l.entry.session, p) then
      controllers[l.entry.session] == l.entry && !Late(l.entry.expiresAt, frames)
    else
      Late(l.entry.expiresAt, frames) || TriedAfter(others, l.executed + TTL)
  }

  /** Since the link, `others` have run on the table and `frames` have been decided on. */
  ghost predicate Midway(
    server: RelayServer.Server, p: Peer, l: Link, others: seq<Statement>, frames: seq<int>, end: int)
    reads server, server.reg, server.table
  {
    && server.Valid() && server.ttl == TTL && server.Ready(p, l.entry.token)
    && server.table.rows == ExecuteAll(l.rows, others) && Foreign(others, l.entry.token, end)
    && CacheTells(server.reg.controllers, p, l, others, frames)
  }

  lemma OneMoreFrame(frames: seq<int>, at: int, expiresAt: int)
    ensures Late(expiresAt, frames + [at]) <==> Late(expiresAt, frames) || at > expiresAt
  {
    assert at in frames + [at];
    assert forall f | f in frames :: f in frames + [at];
  }

  /** An input frame of the holder. */
  method HandleTyped(
      server: RelayServer.Server, p: Peer, token: DeviceId, ghost l: Link, ghost others: seq<Statement>,
      ghost frames: seq<int>, ghost end: int, s: SessionId, e: Event)
    requires Midway(server, p, l, others, frames, end) && token == l.entry.token && s == l.entry.session
    requires e.Typed? && e.at >= server.Clock()
    modifies server`run, server.reg
    ensures Midway(server, p, l, others, frames + [e.at], end)
    ensures server.Clock() == old(server.Clock()) || server.Clock() == e.at
    ensures PeersOf(server) == old(PeersOf(server))
  {
    OneMoreFrame(frames, e.at, l.entry.expiresAt);
    var forwarded, decided := server.ForwardInput(p, token, s, e.at, e.raw, e.hv);
  }

  lemma OneMoreTry(others: seq<Statement>, st: Statement, t: int)
    ensures TriedAfter(others + [st], t) <==> TriedAfter(others, t) || (Clocked(st) && st.now >= t)
  {
    if TriedAfter(others, t) {
      var k :| 0 <= k < |others| && Clocked(others[k]) && others[k].now >= t;
      assert (others + [st])[k] == others[k];
    }
    if Clocked(st) && st.now >= t {
      assert (others + [st])[|others|] == st;
    }
  }

  /** A rival that is granted the session finds the holder's row expired. */
  lemma RivalComesLate(l: Link, others: seq<Statement>, st: Statement, d: DeviceId, end: int)
    requires InForce(l, l.entry.session, d) && Foreign(others, d, end)
    requires st.Upsert? && st.session == l.entry.session && st.device != d
    requires var rows := ExecuteAll(l.rows, others);
             st.session in rows && rows[st.session].device == d && Execute(rows, st).returned.Some?
    ensures st.now >= l.executed + TTL
  {
    OthersNeverExtend(l.rows, others, l.entry.session, d, l.executed + TTL);
  }

  /** What an attempt of a rival does to the cache. */
  lemma RivalKeepsTelling(
    before: map<SessionId, Entry>, after: map<SessionId, Entry>, p: Peer, l: Link, others: seq<Statement>,
    frames: seq<int>, end: int, st: Statement, e: Event, rows: Rows)
    requires CacheTells(before, p, l, others, frames) && rows == ExecuteAll(l.rows, others)
    requires InForce(l, l.entry.session, l.entry.token) && Foreign(others, l.entry.token, end)
    requires CachedFor(before, l.entry.session, p) ==> RelaySafety.EntryBacked(rows, l.entry)
    requires e.Rival? && e.q != p && e.device != l.entry.token
    requires st.Upsert? && st.session == e.session && st.device == e.device && st.now == e.at
    requires if Execute(rows, st).returned.None? then after == before
             else e.session in after && after[e.session].peer == e.q
                  && forall x | x != e.session ::
                       (x in before <==> x in after) && (x in before ==> before[x] == after[x])
    ensures CacheTells(after, p, l, others + [st], frames)
  {
    OneMoreTry(others, st, l.executed + TTL);
    if e.session == l.entry.session && Execute(rows, st).returned.Some? && CachedFor(before, l.entry.session, p) {
      RivalComesLate(l, others, st, l.entry.token, end);
    }
  }

  /** An attempt of another device to acquire a session. */
  method HandleRival(
      server: RelayServer.Server, p: Peer, ghost l: Link, ghost others: seq<Statement>, ghost frames: seq<int>,
      ghost end: int, e: Event)
    returns (ghost others': seq<Statement>)
    requires Midway(server, p, l, others, frames, end) && InForce(l, l.entry.session, l.entry.token)
    requires e.Rival? && server.Ready(e.q, e.device) && e.device != l.entry.token && e.at <= end
    modifies server`run, server.reg, server.table
    ensures Midway(server, p, l, others', frames, end)
    ensures server.Clock() == old(server.Clock()) || server.Clock() == e.at
    ensures PeersOf(server) == old(PeersOf(server))
  {
    ghost var before, rows := server.reg.controllers, server.table.rows;
    var rpc := RelayServer.Reached(e.at);
    ghost var st := Upsert(e.session, e.device, rpc.at, rpc.at + server.ttl);
    ghost var reaches := e.session != "" && IsWatching(server.reg.Contents(), e.session, e.q)
                         && e.session in server.reg.daemons;
    var reply := server.HandleControlAcquire(e.q, e.device, e.session, rpc);
    others' := if reaches then others + [st] else others;
    if reaches {
      LeaseService.OneMoreStatement(l.rows, others, st);
      RivalKeepsTelling(before, server.reg.controllers, p, l, others, frames, end, st, e, rows);
    }
  }

  method Handle(
      server: RelayServer.Server, p: Peer, token: DeviceId, s: SessionId, ghost l: Link, ghost others: seq<Statement>,
      ghost frames: seq<int>, ghost end: int, e: Event)
    returns (ghost others': seq<Statement>)
    requires Midway(server, p, l, others, frames, end) && InForce(l, s, token) && e.at <= end
    requires e.Typed? ==> e.at >= server.Clock()
    requires e.Rival? ==> server.Ready(e.q, e.device) && e.device != token
    modifies server`run, server.reg, server.table
    ensures Midway(server, p, l, others', frames + FrameOf(e), end)
    ensures server.Clock() == old(server.Clock()) || server.Clock() == e.at
    ensures PeersOf(server) == old(PeersOf(server))
  {
    if e.Typed? {
      others' := others;
      HandleTyped(server, p, token, l, others, frames, end, s, e);
    } else {
      assert frames + FrameOf(e) == frames;
      others' := HandleRival(server, p, l, others, frames, end, e);
    }
  }

  /** Everything that happens between two renewals. */
  method Meanwhile(
      server: RelayServer.Server, p: Peer, token: DeviceId, s: SessionId, ghost l: Link, ghost others: seq<Statement>,
      ghost frames: seq<int>, ghost end: int, events: seq<Event>)
    returns (ghost others': seq<Statement>)
    requires Midway(server, p, l, others, frames, end) && InForce(l, s, token)
    requires InOrder(server.Clock(), events) && Guests(PeersOf(server), events, token)
    requires forall e | e in events :: e.at <= end
    modifies server`run, server.reg, server.table
    ensures Midway(server, p, l, others', frames + Frames(events), end)
    ensures old(server.Clock()) <= end ==> server.Clock() <= end
    ensures PeersOf(server) == old(PeersOf(server))
    decreases |events|
  {
    if events == [] {
      others' := others;
      assert frames + Frames(events) == frames;
      return;
    }
    var e := events[0];
    assert e in events;
    ghost var now := server.Clock();
    others' := Handle(server, p, token, s, l, others, frames, end, e);
    RestIsFine(PeersOf(server), token, now, server.Clock(), frames, events, end);
    others' := Meanwhile(server, p, token, s, l, others', frames + FrameOf(e), end, events[1..]);
  }

  lemma RestIsFine(
    peers: map<Peer, RelayProtocol.Conn>, token: DeviceId, now: int, clock: int, frames: seq<int>, events: seq<Event>,
    end: int)
    requires events != [] && InOrder(now, events) && Guests(peers, events, token)
    requires clock <= RelaySimulation.Latest(now, events[0].at) && forall e | e in events :: e.at <= end
    ensures InOrder(clock, events[1..]) && Guests(peers, events[1..], token)
    ensures forall e | e in events[1..] :: e.at <= end
    ensures frames + Frames(events) == (frames + FrameOf(events[0])) + Frames(events[1..])
  {
    EarlierIsFine(clock, RelaySimulation.Latest(now, events[0].at), events[1..]);
    Regrouped(frames, FrameOf(events[0]), Frames(events[1..]));
  }

  lemma Regrouped(a: seq<int>, b: seq<int>, c: seq<int>)
    ensures a + (b + c) == (a + b) + c
  {
  }

  lemma EarlierIsFine(earlier: int, now: int, events: seq<Event>)
    requires earlier <= now && InOrder(now, events)
    ensures InOrder(earlier, events)
    decreases |events|
  {
    if events != [] {
      var at := events[0].at;
      EarlierIsFine(RelaySimulation.Latest(earlier, at), RelaySimulation.Latest(now, at), events[1..]);
    }
  }

  // ----- one renewal

  /** What a round makes of a link whose entry is still cached, and therefore the row, when the request arrives. */
  lemma RenewedFromRow(l: Link, r: Round, rows: Rows) returns (next: Link)
    requires rows == ExecuteAll(l.rows, r.others) && !Late(l.entry.expiresAt, r.frames)
    requires RelaySafety.EntryBacked(rows, l.entry) && l.entry.version == l.version
    ensures Renewed(l, r) == if r.executed < rows[l.entry.session].expiresAt then Some(next) else None
    ensures AnswerFits(l.entry.session, Grant(next.version, next.entry.expiresAt), r.received, next)
    ensures next.rows == RelayServer.Extended(rows, l.entry.session, r.executed, TTL)
    ensures next.version == l.version + 1
    ensures next.entry == l.entry.(version := l.version + 1, expiresAt := WholeSeconds(r.executed + TTL))
  {
    var s, expiresAt := l.entry.session, r.executed + TTL;
    var entry := l.entry.(version := l.version + 1, expiresAt := WholeSeconds(expiresAt));
    next := Link(RelayServer.Extended(rows, s, r.executed, TTL), entry, l.version + 1,
                 r.received + ViewerControl.RenewDelay(entry.expiresAt, r.received), r.executed, r.cached, r.received);
  }

  /** When the entry has gone, the chain ends here as well. */
  lemma GoneMeansRefused(controllers: map<SessionId, Entry>, p: Peer, l: Link, r: Round, d: DeviceId)
    requires InForce(l, l.entry.session, d) && WellTimed(l, r) && FromOthers(r, d)
    requires CacheTells(controllers, p, l, r.others, r.frames) && !CachedFor(controllers, l.entry.session, p)
    ensures Renewed(l, r).None?
  {
    RenewalSucceedsExactlyInTime(l, r, l.entry.session, d);
  }

  /** The grant, received at `now`, is the one of the link. */
  ghost predicate AnswerFits(s: SessionId, grant: Grant, now: int, next: Link) {
    && grant == Grant(next.version, next.entry.expiresAt) && next.entry.session == s
    && next.renewAt == now + ViewerControl.RenewDelay(next.entry.expiresAt, now)
  }

  /** The relay's handler for a request that reaches the control plane; `held` tells whether the grant asked about is
      the one cached. */
  method RelayAnswers(
      server: RelayServer.Server, p: Peer, token: DeviceId, s: SessionId, v: int, at: int, ghost held: bool,
      ghost next: Link)
    returns (reply: RelayServer.Reply)
    requires server.Valid() && server.ttl == TTL && server.Ready(p, token) && s != "" && v > 0
    requires held == server.Holding(p, s, v)
    requires held ==>
               && s in server.table.rows
               && next.version == v + 1 && next.entry == Entry(p, s, v + 1, WholeSeconds(at + TTL), token)
               && next.rows == RelayServer.Extended(server.table.rows, s, at, TTL)
    modifies server`run, server.reg, server.table
    ensures held ==> reply.Granted? == (at < old(server.table.rows)[s].expiresAt)
    ensures !held ==> !reply.Granted? && server.reg.Contents() == old(server.reg.Contents())
    ensures reply.Granted? ==>
              && reply.grant == Grant(next.version, next.entry.expiresAt)
              && RelayAt(server, p, next) && server.table.rows == next.rows
    ensures held && !reply.Granted? ==> s !in server.reg.controllers
    ensures !reply.Granted? ==> server.table.rows == old(server.table.rows)
    ensures server.Valid() && PeersOf(server) == old(PeersOf(server))
    ensures server.Clock() == old(server.Clock()) || server.Clock() == at
  {
    var rpc := RelayServer.Reached(at);
    reply := server.HandleControlRenew(p, token, s, v, rpc);
  }

  /** The relay's part of a round. */
  method RelayRenews(
      server: RelayServer.Server, p: Peer, token: DeviceId, s: SessionId, v: int, ghost l: Link, ghost r: Round,
      at: int)
    returns (reply: RelayServer.Reply, ghost next: Link)
    requires Midway(server, p, l, r.others, r.frames, at) && InForce(l, s, token) && WellTimed(l, r)
    requires s == l.entry.session != "" && v == l.version > 0 && l.entry.peer == p && r.executed == at
    modifies server`run, server.reg, server.table
    ensures Renewed(l, r) == if reply.Granted? then Some(next) else None
    ensures reply.Granted? ==> AnswerFits(s, reply.grant, r.received, next)
    ensures reply.Granted? ==> RelayAt(server, p, next) && server.table.rows == next.rows
    ensures !reply.Granted? ==>
              !CachedFor(server.reg.controllers, s, p) && server.table.rows == old(server.table.rows)
    ensures server.Valid() && PeersOf(server) == old(PeersOf(server))
    ensures server.Clock() == old(server.Clock()) || server.Clock() == at
  {
    ghost var held := server.Holding(p, s, v);
    next := l;
    if held {
      next := RenewedFromRow(l, r, server.table.rows);
    } else {
      GoneMeansRefused(server.reg.controllers, p, l, r, token);
    }
    reply := RelayAnswers(server, p, token, s, v, at, held, next);
  }

  /** The viewer's part: what it sends, and what it makes of the answer. */
  method ViewerAsks(viewer: ViewerControl.Control, ghost l: Link) returns (message: ViewerControl.Message)
    requires ViewerAt(viewer, l)
    modifies viewer
    ensures message == ViewerControl.ControlRenew(viewer.session, l.version)
    ensures viewer.sent == old(viewer.sent) + [message] && viewer.Valid()
  {
    viewer.RenewTimerFires();
    message := viewer.sent[|viewer.sent| - 1];
  }

  method ViewerHears(viewer: ViewerControl.Control, granted: bool, grant: Grant, now: int, ghost next: Link)
    requires viewer.Valid()
    requires granted ==> AnswerFits(viewer.session, grant, now, next)
    modifies viewer
    ensures viewer.sent == old(viewer.sent)
    ensures if granted then ViewerAt(viewer, next)
            else viewer.state.Denied? && viewer.leaseVersion == None && viewer.renewAt == None
  {
    if granted {
      viewer.HandleEnvelope(ViewerControl.ControlGranted(grant.version, grant.expiresAt), now);
    } else {
      viewer.HandleEnvelope(ViewerControl.ControlDenied, now);
    }
  }

  // ----- rounds

  /** One round: what happens before the renewal, and when the timer fires, the request is executed, and its answer
      cached and received. */
  datatype Turn = Turn(events: seq<Event>, fired: int, executed: int, cached: int, received: int)

  /** The round made of a turn and of the statements that others got in. */
  function RoundOf(t: Turn, others: seq<Statement>): Round {
    Round(others, Frames(t.events), t.fired, t.executed, t.cached, t.received)
  }

  /** The turn follows a grant cached at `cached` with the timer set to `renewAt`. */
  predicate Follows(cached: int, renewAt: int, t: Turn) {
    && renewAt <= t.fired <= t.executed <= t.cached <= t.received
    && InOrder(cached, t.events) && cached <= t.executed && forall e | e in t.events :: e.at <= t.executed
  }

  lemma TurnsAreRounds(l: Link, t: Turn, others: seq<Statement>, d: DeviceId)
    requires Follows(l.cached, l.renewAt, t) && Foreign(others, d, t.executed)
    ensures WellTimed(l, RoundOf(t, others)) && FromOthers(RoundOf(t, others), d)
  {
    FramesWithin(l.cached, t.events, t.executed);
  }

  /** One round in place: viewer and other devices do what they do, the timer fires, the relay handles what the viewer
      sent, the viewer handles the answer. */
  method RenewOnce(
      viewer: ViewerControl.Control, server: RelayServer.Server, p: Peer, token: DeviceId, ghost l: Link, t: Turn)
    returns (ok: bool, ghost r: Round, ghost next: Link)
    requires ViewerAt(viewer, l) && RelayAt(server, p, l) && server.table.rows == l.rows
    requires InForce(l, viewer.session, token) && Follows(l.cached, l.renewAt, t)
    requires server.Clock() <= l.cached && Guests(PeersOf(server), t.events, token)
    modifies viewer, server`run, server.reg, server.table
    ensures viewer.sent == old(viewer.sent) + [ViewerControl.ControlRenew(viewer.session, l.version)]
    ensures r == RoundOf(t, r.others) && WellTimed(l, r) && FromOthers(r, token)
    ensures Renewed(l, r) == if ok then Some(next) else None
    ensures ok ==> ViewerAt(viewer, next) && RelayAt(server, p, next) && server.table.rows == next.rows
    ensures !ok ==>
              && viewer.state.Denied? && viewer.leaseVersion == None && viewer.renewAt == None
              && !CachedFor(server.reg.controllers, viewer.session, p)
    ensures server.Valid() && server.Clock() <= t.executed && PeersOf(server) == old(PeersOf(server))
  {
    EarlierIsFine(server.Clock(), l.cached, t.events);
    ghost var others := Meanwhile(server, p, token, viewer.session, l, [], [], t.executed, t.events);
    TurnsAreRounds(l, t, others, token);
    r := RoundOf(t, others);
    assert [] + Frames(t.events) == r.frames;
    var message := ViewerAsks(viewer, l);
    var reply;
    reply, next := RelayRenews(server, p, token, message.session, message.version, l, r, t.executed);
    ok := reply.Granted?;
    ViewerHears(viewer, ok, if ok then reply.grant else Grant(0, 0), t.received, next);
  }

  /** The turn is executed before the row expires, and no frame is decided on after the cached grant expired. */
  predicate TurnInTime(executed: int, t: Turn) {
    t.executed < executed + TTL && !Late(WholeSeconds(executed + TTL), Frames(t.events))
  }

  predicate AllInTime(executed: int, turns: seq<Turn>)
    decreases |turns|
  {
    turns == [] || (TurnInTime(executed, turns[0]) && AllInTime(turns[0].executed, turns[1..]))
  }

  /** Each turn follows the one before it, for as long as they are in time. */
  predicate OnTime(executed: int, cached: int, renewAt: int, turns: seq<Turn>)
    decreases |turns|
  {
    turns == [] ||
    var t := turns[0];
    && Follows(cached, renewAt, t)
    && (TurnInTime(executed, t) ==>
          var renewAt' := t.received + ViewerControl.RenewDelay(WholeSeconds(t.executed + TTL), t.received);
          OnTime(t.executed, t.cached, renewAt', turns[1..]))
  }

  /** A turn succeeds exactly when it is in time, and leads to a link with its own times. */
  lemma TurnSucceedsExactlyInTime(l: Link, t: Turn, others: seq<Statement>, s: SessionId, d: DeviceId)
    requires InForce(l, s, d) && WellTimed(l, RoundOf(t, others)) && FromOthers(RoundOf(t, others), d)
    ensures Renewed(l, RoundOf(t, others)).Some? <==> TurnInTime(l.executed, t)
    ensures TurnInTime(l.executed, t) ==>
              var next := Renewed(l, RoundOf(t, others)).value;
              && InForce(next, s, d) && next.version == l.version + 1
              && next.executed == t.executed && next.cached == t.cached
              && next.renewAt == t.received + ViewerControl.RenewDelay(WholeSeconds(t.executed + TTL), t.received)
  {
    RenewalSucceedsExactlyInTime(l, RoundOf(t, others), s, d);
    if TurnInTime(l.executed, t) {
      RenewalInTimeSucceeds(l, RoundOf(t, others), s, d);
    }
  }

  /** Every rival of every turn is a guest. */
  predicate AllGuests(peers: map<Peer, RelayProtocol.Conn>, turns: seq<Turn>, token: DeviceId) {
    forall t | t in turns :: Guests(peers, t.events, token)
  }

  /** After a turn that succeeds, the remaining ones follow from its link. */
  lemma TurnsGoOn(
    l: Link, turns: seq<Turn>, r: Round, s: SessionId, d: DeviceId, peers: map<Peer, RelayProtocol.Conn>)
    requires turns != [] && InForce(l, s, d) && OnTime(l.executed, l.cached, l.renewAt, turns)
    requires r == RoundOf(turns[0], r.others) && WellTimed(l, r) && FromOthers(r, d) && AllGuests(peers, turns, d)
    ensures Guests(peers, turns[0].events, d) && Follows(l.cached, l.renewAt, turns[0])
    ensures Renewed(l, r).Some? <==> TurnInTime(l.executed, turns[0])
    ensures Renewed(l, r).Some? ==>
              var next := Renewed(l, r).value;
              && InForce(next, s, d) && next.version == l.version + 1 && next.executed == turns[0].executed
              && next.executed <= next.cached && OnTime(next.executed, next.cached, next.renewAt, turns[1..])
              && AllGuests(peers, turns[1..], d)
  {
    assert turns[0] in turns && forall t | t in turns[1..] :: t in turns;
    TurnSucceedsExactlyInTime(l, turns[0], r.others, s, d);
  }

  /** Any number of rounds, until one is refused. The viewer is still granted at the end if and only if each round was
      in time, whatever the other devices tried; `rounds` are the rounds of the chain it went through. */
  method KeepRenewing(
      viewer: ViewerControl.Control, server: RelayServer.Server, p: Peer, token: DeviceId, ghost l: Link,
      turns: seq<Turn>)
    returns (granted: bool, ghost rounds: seq<Round>)
    requires ViewerAt(viewer, l) && RelayAt(server, p, l) && server.table.rows == l.rows
    requires InForce(l, viewer.session, token) && OnTime(l.executed, l.cached, l.renewAt, turns)
    requires server.Clock() <= l.cached && AllGuests(PeersOf(server), turns, token)
    modifies viewer, server`run, server.reg, server.table
    ensures granted <==> AllInTime(l.executed, turns)
    ensures |rounds| <= |turns| && forall k | 0 <= k < |rounds| :: rounds[k] == RoundOf(turns[k], rounds[k].others)
    ensures granted ==>
              var last := LastOf(Chain(l, rounds));
              && |rounds| == |turns| && last.version == l.version + |turns|
              && ViewerAt(viewer, last) && RelayAt(server, p, last) && server.table.rows == last.rows
    ensures !granted ==>
              viewer.state.Denied? && viewer.renewAt == None && !CachedFor(server.reg.controllers, viewer.session, p)
    decreases |turns|
  {
    if turns == [] {
      return true, [];
    }
    assert turns[0] in turns;
    ghost var r, next;
    granted, r, next := RenewOnce(viewer, server, p, token, l, turns[0]);
    TurnsGoOn(l, turns, r, viewer.session, token, PeersOf(server));
    rounds := [r];
    if granted {
      ghost var more;
      granted, more := KeepRenewing(viewer, server, p, token, next, turns[1..]);
      RoundsJoin(l, turns, r, more);
      rounds := [r] + more;
    }
  }

  lemma RoundsJoin(l: Link, turns: seq<Turn>, r: Round, more: seq<Round>)
    requires turns != [] && r == RoundOf(turns[0], r.others) && |more| <= |turns| - 1 && Renewed(l, r).Some?
    requires forall k | 0 <= k < |more| :: more[k] == RoundOf(turns[1..][k], more[k].others)
    ensures var rounds := [r] + more;
            && (forall k | 0 <= k < |rounds| :: rounds[k] == RoundOf(turns[k], rounds[k].others))
            && LastOf(Chain(l, rounds)) == LastOf(Chain(Renewed(l, r).value, more))
  {
    var rounds := [r] + more;
    assert rounds[1..] == more;
    LastOfLonger(l, rounds);
    forall k | 0 <= k < |rounds|
      ensures rounds[k] == RoundOf(turns[k], rounds[k].others)
    {
      if k > 0 {
        assert rounds[k] == more[k - 1];
      }
    }
  }

  ghost function LastOf(chain: seq<Link>): Link
    requires chain != []
  {
    chain[|chain| - 1]
  }

  lemma LastOfLonger(l: Link, rounds: seq<Round>)
    requires rounds != [] && Renewed(l, rounds[0]).Some?
    ensures LastOf(Chain(l, rounds)) == LastOf(Chain(Renewed(l, rounds[0]).value, rounds[1..]))
  {
    assert Chain(l, rounds) == [l] + Chain(Renewed(l, rounds[0]).value, rounds[1..]);
  }

  /** The holder types after the cached expiry and then renews: in whatever state the relay is, it refuses without
      asking the control plane, whether the row has expired or not. */
  method TypedThenRefused(
      server: RelayServer.Server, p: Peer, token: DeviceId, s: SessionId, v: int, typed: Event, at: int)
    returns (reply: RelayServer.Reply)
    requires server.Valid() && server.Ready(p, token) && server.Holding(p, s, v) && s != "" && v > 0
    requires typed.Typed? && server.Clock() <= typed.at <= at && server.reg.controllers[s].expiresAt < typed.at
    modifies server`run, server.reg, server.table
    ensures reply == RelayServer.Refused("stale_lease") && server.table.rows == old(server.table.rows)
    ensures !CachedFor(server.reg.controllers, s, p)
  {
    var forwarded, decided := server.ForwardInput(p, token, s, typed.at, typed.raw, typed.hv);
    reply := server.HandleControlRenew(p, token, s, v, RelayServer.Reached(at));
  }
}
