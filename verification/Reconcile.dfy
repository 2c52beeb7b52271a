/**
  The host daemon's bookkeeping: a local store of sessions, the control plane's view of them, and the
  three operations that move both. Calls do not overlap.
 */
module Reconcile {
  import opened Base

  type Id = string

  datatype Probe = Live | Missing | Unknown

  /** What happens to a control call: it arrives and is answered, never arrives, or takes effect with its
      answer lost. */
  datatype Network = Up | Down | ReplyLost

  datatype Reply = Done | NoSuchSession | Failed

  /** The surroundings of one session during one operation. */
  datatype Weather = Weather(probe: Probe, network: Network, deleteFails: bool)

  datatype Call = Heartbeat(id: Id, status: string) | Patch(id: Id, status: string)

  /** One session as both sides see it: its status in the local store and at control, if present there. */
  datatype Row = Row(local: Option<string>, control: Option<string>)

  predicate IsActive(status: string) {
    status == "running" || status == "starting" || status == "idle"
  }

  // ----- one session

  /** Heartbeat and PATCH both set the status of an existing control row. */
  function AfterCall(control: Option<string>, status: string, net: Network): Option<string> {
    if net.Down? || control.None? then control else Some(status)
  }

  function ReplyTo(control: Option<string>, net: Network): Reply {
    if !net.Up? then Failed else if control.None? then NoSuchSession else Done
  }

  /** What the reaper does to one row. */
  function ReapRow(r: Row, w: Weather): Row {
    if r.local.None? || !IsActive(r.local.value) || w.probe.Unknown? then r
    else if w.probe.Live? then
      Row(if ReplyTo(r.control, w.network).NoSuchSession? && !w.deleteFails then None else r.local,
          AfterCall(r.control, r.local.value, w.network))
    else
      var control := AfterCall(r.control, "exited", w.network);
      match ReplyTo(r.control, w.network)
      case Failed => Row(r.local, control)
      case NoSuchSession => Row(if w.deleteFails then r.local else None, control)
      case Done => Row(if w.deleteFails then r.local else None, control)
  }

  /** What ending a session does to its row: the PATCH to exited, and the deletion unless the call failed. */
  function EndRow(r: Row, w: Weather): Row
    requires r.local.Some?
  {
    Row(if ReplyTo(r.control, w.network).Failed? || w.deleteFails then r.local else None,
        AfterCall(r.control, "exited", w.network))
  }

  /** The control call the reaper makes for a session with the given local status. */
  function CallsFor(id: Id, status: string, w: Weather): seq<Call> {
    if !IsActive(status) || w.probe.Unknown? then []
    else if w.probe.Live? then [Heartbeat(id, status)]
    else [Patch(id, "exited")]
  }

  /** The control calls of a sweep over the given sessions, in order. */
  function SweepCalls(store: map<Id, string>, ids: seq<Id>, weather: Id -> Weather): seq<Call>
    requires forall id | id in ids :: id in store
  {
    if ids == [] then []
    else
      var n := |ids| - 1;
      SweepCalls(store, ids[..n], weather) + CallsFor(ids[n], store[ids[n]], weather(ids[n]))
  }

  /** A row leaves the local store only when control has it exited or does not have it. */
  predicate Settled(r: Row) {
    r.local.None? ==> r.control.None? || r.control.value == "exited"
  }

  lemma ReapingSettles(r: Row, w: Weather)
    requires r.local.Some?
    ensures Settled(ReapRow(r, w)) && Settled(EndRow(r, w))
  {
  }

  /** A probe that fails leaves the row alone; the status at control turns to exited, or the row leaves the
      store of a live session, only on a definite answer. */
  lemma ReapingIsCautious(r: Row, w: Weather)
    requires r.local.Some? && IsActive(r.local.value)
    ensures w.probe.Unknown? ==> ReapRow(r, w) == r
    ensures ReapRow(r, w).control == Some("exited") && r.control != Some("exited") ==> w.probe.Missing?
    ensures w.probe.Live? && ReapRow(r, w).local.None? ==> r.control.None?
    ensures w.network.Down? && !w.probe.Unknown? ==> ReapRow(r, w) == r
  {
  }

  /** When a reaped row leaves the store: its pane is alive and control answers that it has no such session, or the pane
      is gone and control answers at all; and the deletion works. */
  lemma LeavesTheStoreExactly(r: Row, w: Weather)
    requires r.local == Some("running") || r.local == Some("starting") || r.local == Some("idle")
    ensures ReapRow(r, w).local == None
            <==> !w.deleteFails && w.network.Up? && ((w.probe.Live? && r.control.None?) || w.probe.Missing?)
    ensures ReapRow(r, w).local == None || ReapRow(r, w).local == r.local
    ensures EndRow(r, w).local == None <==> !w.deleteFails && w.network.Up?
    ensures EndRow(r, w).local == None || EndRow(r, w).local == r.local
  {
  }

  /** What control shows for a reaped row: the local status if the pane is alive, "exited" if it is gone, provided the
      call arrives and control has the session at all; otherwise what it showed before. */
  lemma ControlShowsExactly(r: Row, w: Weather)
    requires r.local == Some("running") || r.local == Some("starting") || r.local == Some("idle")
    ensures ReapRow(r, w).control
            == if r.control.None? || w.network.Down? || w.probe.Unknown? then r.control
               else if w.probe.Live? then r.local
               else Some("exited")
    ensures EndRow(r, w).control == if r.control.None? || w.network.Down? then r.control else Some("exited")
  {
  }

  /** Rows in any other status are left alone. */
  lemma OtherStatusesAreLeftAlone(r: Row, w: Weather)
    requires r.local != Some("running") && r.local != Some("starting") && r.local != Some("idle")
    ensures ReapRow(r, w) == r
  {
  }

  /** A row kept after a failure is settled by the next reaping that gets through. */
  lemma NextReapingGetsThrough(r: Row, w: Weather, later: Weather)
    requires r.local.Some? && IsActive(r.local.value)
    requires later.probe.Missing? && later.network.Up? && !later.deleteFails
    ensures ReapRow(ReapRow(r, w), later).local.None?
  {
  }

  // ----- the daemon

  function RowIn(store: map<Id, string>, control: map<Id, string>, id: Id): Row {
    Row(if id in store then Some(store[id]) else None, if id in control then Some(control[id]) else None)
  }

  datatype View = View(store: map<Id, string>, control: map<Id, string>, calls: seq<Call>)

  function RowSeen(v: View, id: Id): Row {
    RowIn(v.store, v.control, id)
  }

  ghost predicate IsList(v: View, ids: seq<Id>) {
    && (forall id :: id in ids <==> id in v.store)
    && (forall i, j | 0 <= i < j < |ids| :: ids[i] != ids[j])
  }

  /** From view `v0` to view `v` the first `n` sessions of the list have been reaped, and nothing else changed. */
  ghost predicate SweptTo(v0: View, v: View, ids: seq<Id>, n: nat, weather: Id -> Weather)
    requires n <= |ids| && IsList(v0, ids)
  {
    && (forall id | id in ids[..n] :: RowSeen(v, id) == ReapRow(RowSeen(v0, id), weather(id)))
    && (forall id | id !in ids[..n] :: RowSeen(v, id) == RowSeen(v0, id))
    && v.calls == v0.calls + SweepCalls(v0.store, ids[..n], weather)
  }

  /** The session is active and its probe gave an answer. */
  predicate NeedsCredentials(v0: View, ids: seq<Id>, n: nat, weather: Id -> Weather)
    requires n < |ids|
  {
    ids[n] in v0.store && IsActive(v0.store[ids[n]]) && !weather(ids[n]).probe.Unknown?
  }

  lemma NextIsUntouched(v0: View, v: View, ids: seq<Id>, n: nat, weather: Id -> Weather)
    requires n < |ids| && IsList(v0, ids) && SweptTo(v0, v, ids, n, weather)
    ensures ids[n] in v0.store && ids[n] in v.store && v.store[ids[n]] == v0.store[ids[n]]
  {
    assert ids[n] in ids && ids[n] !in ids[..n];
    assert RowSeen(v, ids[n]) == RowSeen(v0, ids[n]);
  }

  lemma SweptOneMore(v0: View, v: View, v': View, ids: seq<Id>, n: nat, weather: Id -> Weather)
    requires n < |ids| && IsList(v0, ids) && SweptTo(v0, v, ids, n, weather)
    requires ids[n] in v.store && OneReaped(v, v', ids[n], weather(ids[n]))
    ensures SweptTo(v0, v', ids, n + 1, weather)
  {
    NextIsUntouched(v0, v, ids, n, weather);
    OneMoreCall(v0.store, ids, n, weather);
    assert ids[n] !in ids[..n];
    assert RowSeen(v, ids[n]) == RowSeen(v0, ids[n]);
    forall id
      ensures id in ids[..n + 1] ==> RowSeen(v', id) == ReapRow(RowSeen(v0, id), weather(id))
      ensures id !in ids[..n + 1] ==> RowSeen(v', id) == RowSeen(v0, id)
    {
      assert id in ids[..n + 1] <==> id in ids[..n] || id == ids[n];
    }
  }

  lemma OneMoreCall(store: map<Id, string>, ids: seq<Id>, n: nat, weather: Id -> Weather)
    requires n < |ids| && forall id | id in ids :: id in store
    ensures SweepCalls(store, ids[..n + 1], weather)
            == SweepCalls(store, ids[..n], weather) + CallsFor(ids[n], store[ids[n]], weather(ids[n]))
  {
    assert ids[..n + 1][..n] == ids[..n];
  }

  /** One session has been reaped, and nothing else changed. */
  ghost predicate OneReaped(v: View, v': View, id: Id, w: Weather)
    requires id in v.store
  {
    && RowSeen(v', id) == ReapRow(RowSeen(v, id), w)
    && (forall x | x != id :: RowSeen(v', x) == RowSeen(v, x))
    && v'.calls == v.calls + CallsFor(id, v.store[id], w)
  }

  /** Sweeping adds nothing to the store and settles whatever leaves it. */
  lemma SweepKeepsPromise(v0: View, v: View, ids: seq<Id>, n: nat, weather: Id -> Weather)
    requires n <= |ids| && IsList(v0, ids) && SweptTo(v0, v, ids, n, weather)
    ensures v.store.Keys <= v0.store.Keys
    ensures forall id | Settled(RowSeen(v0, id)) :: Settled(RowSeen(v, id))
  {
    forall id
      ensures id in v.store ==> id in v0.store
      ensures Settled(RowSeen(v0, id)) ==> Settled(RowSeen(v, id))
    {
      if id in ids[..n] {
        assert id in ids && RowSeen(v, id) == ReapRow(RowSeen(v0, id), weather(id));
        ReapingSettles(RowSeen(v0, id), weather(id));
      } else {
        assert RowSeen(v, id) == RowSeen(v0, id);
        assert RowSeen(v, id).local.Some? <==> id in v.store;
        assert RowSeen(v0, id).local.Some? <==> id in v0.store;
      }
    }
  }

  lemma SameRowsSameViews(v: View, v': View)
    ensures (forall id :: RowSeen(v, id) == RowSeen(v', id)) <==> v.store == v'.store && v.control == v'.control
  {
    if forall id :: RowSeen(v, id) == RowSeen(v', id) {
      forall id
        ensures id in v.store <==> id in v'.store
        ensures id in v.store ==> v.store[id] == v'.store[id]
        ensures id in v.control <==> id in v'.control
        ensures id in v.control ==> v.control[id] == v'.control[id]
      {
        assert RowSeen(v, id) == RowSeen(v', id);
      }
      assert v.store.Keys == v'.store.Keys && v.control.Keys == v'.control.Keys;
    }
  }

  /** The surroundings of a start: whether credentials can be had, what happens to the create call, whether control
      drops the new session before it is called again, whether the pane starts, what happens to the call that reports
      a failed launch or a running session, and whether saving and announcing fail. */
  datatype StartWeather = StartWeather(
    credentials: bool, create: Network, dropped: bool, launchFails: bool, mark: Network, patch: Network,
    saveFails: bool, announceFails: bool)

  /** What control has when the pane is launched, after an answered creation. */
  function Created(w: StartWeather): Option<string> {
    if w.dropped then None else Some("starting")
  }

  /** What a start leaves behind, locally and at control. */
  function StartedRow(w: StartWeather): Row {
    if !w.credentials || w.create.Down? then Row(None, None)
    else if w.create.ReplyLost? then Row(None, Some("starting"))
    else if w.launchFails then Row(None, AfterCall(Created(w), "failed", w.mark))
    else
      Row(if ReplyTo(Created(w), w.patch).Done? && !w.saveFails then Some("running") else None,
          AfterCall(Created(w), "running", w.patch))
  }

  /** What a start leaves behind, written out: saved as running only if every call got through and the session was still
      there; at control it is starting until a later call reaches it, then failed or running. */
  lemma StartedExactly(w: StartWeather)
    ensures StartedRow(w).local
            == if w.credentials && w.create.Up? && !w.dropped && !w.launchFails && w.patch.Up? && !w.saveFails
               then Some("running") else None
    ensures StartedRow(w).control
            == if !w.credentials || w.create.Down? || (w.create.Up? && w.dropped) then None
               else if w.create.ReplyLost? then Some("starting")
               else if (if w.launchFails then w.mark.Down? else w.patch.Down?) then Some("starting")
               else if w.launchFails then Some("failed")
               else Some("running")
  {
  }

  /** Control takes the session for live, and the host, which would reap it, does not know it. */
  predicate Stranded(r: Row) {
    r.local.None? && r.control.Some? && IsActive(r.control.value)
  }

  /** The start is cut off between the creation of a session and its saving, with control none the wiser: the answer to
      the creation is lost, or control still has the session and a failed launch cannot be reported, or the PATCH to
      running gets no good answer, or the session cannot be saved. */
  predicate CutOff(w: StartWeather) {
    && w.credentials
    && (|| w.create.ReplyLost?
        || (&& w.create.Up? && !w.dropped
            && if w.launchFails then w.mark.Down? else !w.patch.Up? || w.saveFails))
  }

  /** A start strands a session if and only if it is cut off. */
  lemma StrandedExactlyWhenCutOff(w: StartWeather)
    ensures Stranded(StartedRow(w)) <==> CutOff(w)
  {
  }

  class Host {
    var store: map<Id, string>
    var control: map<Id, string>
    var calls: seq<Call>
    ghost var saved: set<Id>     // every session that was ever saved locally

    function RowOf(id: Id): Row
      reads this
    {
      RowIn(store, control, id)
    }

    /** A session once saved and no longer in the store is exited or missing at control. */
    ghost predicate Valid()
      reads this
    {
      store.Keys <= saved && forall id | id in saved :: Settled(RowOf(id))
    }

    constructor ()
      ensures Valid() && store == map[] && control == map[] && saved == {} && calls == []
    {
      store, calls, saved := map[], [], {};
      control := map[];
    }

    /** Sends one control call and applies its effect. */
    method CallControl(call: Call, net: Network) returns (reply: Reply)
      modifies this`control, this`calls
      ensures calls == old(calls) + [call]
      ensures reply == ReplyTo(old(RowOf(call.id)).control, net)
      ensures RowOf(call.id).control == AfterCall(old(RowOf(call.id)).control, call.status, net)
      ensures forall id | id != call.id :: RowOf(id) == old(RowOf(id))
    {
      calls := calls + [call];
      if net.Down? {
        return Failed;
      }
      if call.id !in control {
        return if net.Up? then NoSuchSession else Failed;
      }
      control := control[call.id := call.status];
      return if net.Up? then Done else Failed;
    }

    method DeleteLocal(id: Id, fails: bool)
      modifies this`store
      ensures store == if fails then old(store) else old(store) - {id}
    {
      if !fails {
        store := store - {id};
      }
    }

    /** The local sessions, each once. */
    method List() returns (ids: seq<Id>)
      ensures forall id :: id in ids <==> id in store
      ensures forall i, j | 0 <= i < j < |ids| :: ids[i] != ids[j]
    {
      ids := [];
      var todo := store.Keys;
      while todo != {}
        invariant todo <= store.Keys
        invariant forall id :: id in ids <==> id in store && id !in todo
        invariant forall i, j | 0 <= i < j < |ids| :: ids[i] != ids[j]
        decreases |todo|
      {
        var id :| id in todo;
        ids := ids + [id];
        todo := todo - {id};
      }
    }

    /** Heartbeat or PATCH for one active session whose probe gave an answer. */
    method ReapOne(id: Id, w: Weather)
      requires id in store && IsActive(store[id]) && !w.probe.Unknown?
      modifies this`store, this`control, this`calls
      ensures RowOf(id) == ReapRow(old(RowOf(id)), w)
      ensures forall x | x != id :: RowOf(x) == old(RowOf(x))
      ensures calls == old(calls) + CallsFor(id, old(store)[id], w)
    {
      if w.probe.Live? {
        var reply := CallControl(Heartbeat(id, store[id]), w.network);
        if reply.NoSuchSession? {
          DeleteLocal(id, w.deleteFails);
        }
        return;
      }
      var reply := CallControl(Patch(id, "exited"), w.network);
      if reply.NoSuchSession? {
        DeleteLocal(id, w.deleteFails);
        return;
      }
      if reply.Failed? {
        return;
      }
      DeleteLocal(id, w.deleteFails);
    }

    ghost function Now(): View
      reads this
    {
      View(store, control, calls)
    }

    /** One turn of the sweep; `caller` tells whether credentials have been loaded before. */
    method ReapNext(id: Id, w: Weather, caller: bool, credentials: bool) returns (aborted: bool, caller': bool)
      requires id in store && (caller ==> credentials)
      modifies this`store, this`control, this`calls
      ensures aborted <==> !credentials && IsActive(old(store)[id]) && !w.probe.Unknown?
      ensures if aborted then Now() == old(Now()) else OneReaped(old(Now()), Now(), id, w)
      ensures caller' ==> credentials
    {
      if !IsActive(store[id]) || w.probe.Unknown? {
        return false, caller;
      }
      if !caller && !credentials {
        return true, false;
      }
      ghost var before := Now();
      ReapOne(id, w);
      assert forall x :: RowOf(x) == RowSeen(Now(), x) && old(RowOf(x)) == RowSeen(before, x);
      return false, true;
    }

    /** The same as a step of a sweep that began in view `v0`. */
    method ReapNth(
        ids: seq<Id>, n: nat, weather: Id -> Weather, caller: bool, credentials: bool, ghost v0: View)
      returns (aborted: bool, caller': bool)
      requires n < |ids| && IsList(v0, ids) && SweptTo(v0, Now(), ids, n, weather) && (caller ==> credentials)
      modifies this`store, this`control, this`calls
      ensures caller' ==> credentials
      ensures aborted <==> NeedsCredentials(v0, ids, n, weather) && !credentials
      ensures SweptTo(v0, Now(), ids, if aborted then n else n + 1, weather)
    {
      ghost var v := Now();
      NextIsUntouched(v0, v, ids, n, weather);
      aborted, caller' := ReapNext(ids[n], weather(ids[n]), caller, credentials);
      if !aborted {
        SweptOneMore(v0, v, Now(), ids, n, weather);
      }
    }

    /** The loop of a sweep: rows are dealt with in order, until credentials are needed and cannot be had. */
    method Sweep(ids: seq<Id>, weather: Id -> Weather, credentials: bool) returns (ok: bool, reached: nat)
      requires IsList(Now(), ids)
      modifies this`store, this`control, this`calls
      ensures reached <= |ids| && (ok ==> reached == |ids|)
      ensures !ok ==> !credentials && reached < |ids| && NeedsCredentials(old(Now()), ids, reached, weather)
      ensures SweptTo(old(Now()), Now(), ids, reached, weather)
    {
      var caller := false;
      reached := 0;
      ghost var v0 := Now();
      while reached < |ids|
        invariant reached <= |ids| && (caller ==> credentials)
        invariant SweptTo(v0, Now(), ids, reached, weather)
      {
        var aborted;
        aborted, caller := ReapNth(ids, reached, weather, caller, credentials, v0);
        if aborted {
          return false, reached;
        }
        reached := reached + 1;
      }
      ok := true;
    }

    /** One sweep over the sessions that are in the store when it starts. */
    method Reap(weather: Id -> Weather, listFails: bool, credentials: bool)
      returns (ok: bool, ghost ids: seq<Id>, ghost reached: nat)
      requires Valid()
      modifies this
      ensures Valid() && saved == old(saved)
      ensures listFails ==> !ok && Now() == old(Now())
      ensures !listFails ==> (IsList(old(Now()), ids) && reached <= |ids|
                              && SweptTo(old(Now()), Now(), ids, reached, weather))
      ensures ok ==> reached == |ids|
      ensures !ok && !listFails ==>
                !credentials && reached < |ids| && NeedsCredentials(old(Now()), ids, reached, weather)
    {
      ids, reached := [], 0;
      if listFails {
        return false, [], 0;
      }
      ghost var v0 := Now();
      var sessions := List();
      ids := sessions;
      var n;
      ok, n := Sweep(sessions, weather, credentials);
      reached := n;
      assert forall id :: RowOf(id) == RowSeen(Now(), id) && old(RowOf(id)) == RowSeen(v0, id);
      SweepKeepsPromise(v0, Now(), ids, reached, weather);
    }

    /** Ending a session: the pane is killed first, and whether that worked is not looked at. */
    method EndSession(id: Id, w: Weather, credentials: bool) returns (found: bool, ok: bool)
      requires Valid()
      modifies this
      ensures Valid() && saved == old(saved) && found == (id in old(store))
      ensures forall x | x != id :: RowOf(x) == old(RowOf(x))
      ensures !found || !credentials ==> RowOf(id) == old(RowOf(id)) && calls == old(calls) && !ok
      ensures found && credentials ==>
                && RowOf(id) == EndRow(old(RowOf(id)), w)
                && calls == old(calls) + [Patch(id, "exited")]
                && ok == w.network.Up?
    {
      if id !in store {
        return false, false;
      }
      if !credentials {
        return true, false;
      }
      ReapingSettles(RowOf(id), w);
      var reply := CallControl(Patch(id, "exited"), w.network);
      if reply.Failed? {
        return true, false;
      }
      DeleteLocal(id, w.deleteFails);
      return true, true;
    }

    /** Starting a session: control creates the row under a new id, the pane is launched, control is told it
        runs, and only then is it saved locally. */
    method StartSession(id: Id, w: StartWeather) returns (ok: bool)
      requires Valid() && id !in control && id !in saved
      modifies this
      ensures Valid() && RowOf(id) == StartedRow(w)
      ensures Stranded(RowOf(id)) <==> CutOff(w)
      ensures saved == old(saved) + if id in store then {id} else {}
      ensures forall x | x != id :: RowOf(x) == old(RowOf(x))
      ensures ok <==> id in store && !w.announceFails
      ensures id in store <==>
                w.credentials && w.create.Up? && !w.dropped && !w.launchFails && w.patch.Up? && !w.saveFails
      ensures id in store ==> store[id] == "running" && id in control && control[id] == "running"
      ensures id in control && w.create.Up? && w.launchFails ==>
                control[id] == if w.mark.Down? then "starting" else "failed"
      ensures calls == old(calls) + if !w.credentials || !w.create.Up? then []
                                    else [Patch(id, if w.launchFails then "failed" else "running")]
    {
      StrandedExactlyWhenCutOff(w);
      assert id !in store;
      if !w.credentials || w.create.Down? {
        return false;
      }
      control := control[id := "starting"];
      if w.create.ReplyLost? {
        return false;
      }
      if w.dropped {
        control := control - {id};
      }
      assert forall x | x != id :: RowOf(x) == old(RowOf(x));
      assert RowOf(id) == Row(None, Created(w));
      if w.launchFails {
        var ignored := CallControl(Patch(id, "failed"), w.mark);
        return false;
      }
      var reply := CallControl(Patch(id, "running"), w.patch);
      if !reply.Done? {
        return false;
      }
      if w.saveFails {
        return false;
      }
      store := store[id := "running"];
      saved := saved + {id};
      assert forall x | x != id :: RowOf(x) == old(RowOf(x));
      return !w.announceFails;
    }

    /** Control may drop a session of its own accord; that keeps the promise. */
    method ControlForgets(id: Id)
      requires Valid()
      modifies this`control
      ensures Valid() && control == old(control) - {id}
    {
      control := control - {id};
    }
  }

  /** A stranded session stays as it is for this host: neither a sweep nor an attempt to end it touches it. */
  method StrandedForGood(h: Host, id: Id, weather: Id -> Weather, listFails: bool, credentials: bool)
    requires h.Valid() && Stranded(h.RowOf(id))
    modifies h
    ensures h.Valid() && h.RowOf(id) == old(h.RowOf(id))
  {
    ghost var v := h.Now();
    var ok, ids, reached := h.Reap(weather, listFails, credentials);
    assert h.RowOf(id) == RowSeen(h.Now(), id) && old(h.RowOf(id)) == RowSeen(v, id);
    assert !listFails ==> id !in ids && id !in ids[..reached];
    var found, ended := h.EndSession(id, weather(id), credentials);
  }

  /** The answer to the creation is lost: the start fails, and control goes on showing a session that is starting. */
  method StrandedByLostAnswer(id: Id) returns (h: Host)
    ensures fresh(h) && h.Valid() && Stranded(h.RowOf(id)) && h.control[id] == "starting"
  {
    h := new Host();
    var ok := h.StartSession(id, StartWeather(true, ReplyLost, false, false, Up, Up, false, false));
    assert h.RowOf(id).control.Some?;
  }

  /** Ending a session by hand against reaping it: of two hosts in the same situation, one ends the session and the
      other comes to it in a sweep. They end up alike, and have made the same calls, exactly when the session is
      active and its pane definitely gone, or when neither can do anything for want of credentials. */
  method EndOrReap(ended: Host, reaped: Host, id: Id, w: Weather, credentials: bool)
    requires ended != reaped && ended.Valid() && reaped.Valid()
    requires ended.Now() == reaped.Now() && id in ended.store
    modifies ended, reaped
    ensures ended.Now() == reaped.Now() <==> !credentials || (IsActive(old(ended.store)[id]) && w.probe.Missing?)
    ensures ended.Valid()
  {
    ghost var v, status := ended.Now(), ended.store[id];
    var found, ok := ended.EndSession(id, w, credentials);
    assert forall x :: ended.RowOf(x) == RowSeen(ended.Now(), x) && old(ended.RowOf(x)) == RowSeen(v, x);
    var aborted, caller := reaped.ReapNext(id, w, false, credentials);
    SameRowsSameViews(ended.Now(), reaped.Now());
    if !credentials {
      SameRowsSameViews(ended.Now(), v);
      SameRowsSameViews(reaped.Now(), v);
      assert v.calls + [] == v.calls;
    } else if IsActive(status) && w.probe.Missing? {
      EndingEqualsReaping(RowSeen(v, id), w);
    } else {
      assert ended.calls[|v.calls|] == Patch(id, "exited");
      assert |reaped.calls| > |v.calls| ==> reaped.calls[|v.calls|] == Heartbeat(id, status);
    }
  }

  /** On an active row whose pane is gone, the two operations' own case distinctions come to the same. */
  lemma EndingEqualsReaping(r: Row, w: Weather)
    requires r.local.Some? && IsActive(r.local.value) && w.probe.Missing?
    ensures EndRow(r, w) == ReapRow(r, w)
  {
  }

  /** A sweep PATCHes exactly the active rows it reaches whose probe was definitely missing. */
  lemma {:induction false} PatchedExactlyWhenMissing(
    store: map<Id, string>, ids: seq<Id>, weather: Id -> Weather, id: Id)
    requires forall x | x in ids :: x in store
    ensures Patch(id, "exited") in SweepCalls(store, ids, weather)
            <==> id in ids && (store[id] == "running" || store[id] == "starting" || store[id] == "idle")
                 && weather(id).probe.Missing?
    ensures forall status ::
              (Heartbeat(id, status) in SweepCalls(store, ids, weather)
               <==> id in ids && status == store[id]
                    && (status == "running" || status == "starting" || status == "idle") && weather(id).probe.Live?)
    decreases |ids|
  {
    if ids != [] {
      var n := |ids| - 1;
      PatchedExactlyWhenMissing(store, ids[..n], weather, id);
      assert ids == ids[..n] + [ids[n]];
    }
  }
}
