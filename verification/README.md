# termix: a verified model

termix lets several devices watch a terminal session that runs in tmux on a host, and lets one device at a time type
into it. Who may type is decided by a *control lease*: a row in the control plane's database, granted for 30 seconds,
renewed by the viewer, cached by the relay, and consulted by the relay (only there, never in the database) for every
input frame. This project models that protocol from the SQL statements to the viewer's timer, and the other pieces of
termix that carry a real algorithm, and proves what they promise.

`dafny verify dfyconfig.toml` checks everything.

## What is modelled

* **Lease table and lease service** (`LeaseTable`, `LeaseService`). The five SQL statements act in place on a map from
  session to row. Over arbitrary runs of statements: a lease shuts other devices out until the expiry it was handed out
  with, and the version counts the grants of one lifetime of the row, so it can be spent once. Acquire, a read followed
  later by an upsert, is linearizable whatever other clients commit in between.
* **Relay** (`Registry`, `RelayProtocol`, `RelaySafety`, `RelayLimits`, `RelaySimulation`, `RelayServer`). The registry's
  four maps are changed in place and proved against value functions. `RelayProtocol` cuts the message handlers where
  another connection can get in: a step makes at most one change to the registry, runs at most one database statement, or
  reads the clock. Two steps take two looks at once: the checks of an acquire look up watcher and daemon together, and an
  input frame looks up the daemon together with the clock, so "forwarded at an instant" means decided on at that instant.
  Every interleaving of any number of connections is considered, with late, lost and denied replies, failures and
  disconnects. `RelayServer` is the handlers themselves, in place and uninterrupted; each carries along a run of
  `RelayProtocol` that leads to the same table and registry, so the two models cannot drift apart. `RelayDenial` follows
  an error of the lease service through its reason to the relay and to the frame typed after it.
* **Viewer** (`ViewerControl`, `Renewal`, `RenewalInPlace`, `Reconnect`). The control state machine, the renewal chain, and
  the reconnect loop with its give-up deadline. The chain is stated about values in `Renewal`; `RenewalInPlace` lets the
  viewer's timer, the relay's handler with table and cache, and the viewer's handling of the answer run one round, and
  proves that they do what the chain says.
* **Login limiter** (`LoginLimiter`), **launch command** (`ShellCommand`, against a lexer for sections 2.2 and 2.3 of
  POSIX.1-2017 XCU), **key injection and snapshots** (`KeyInjection`), **pane-size monitor** (`PaneMonitor`), **session
  reconciliation** (`Reconcile`), **the host's reconnect loop** (`RelaySupervisor`), and the **TMX1 frame codec** in its
  two implementations (`FrameCodec`).

Where the source changes state step by step (SQL statements, registry, service, viewer closures, limiter, monitor,
reaper, supervisors, encoders) the model has classes and loops; where it computes, functions. Time is a number: an
instant of one clock, in microseconds for leases (the resolution of the column), milliseconds for the viewer's reconnect
loop, and nanoseconds in Go code. Whatever comes from outside (replies, clock readings, random numbers, probe
results, which step is next) is a parameter that lemmas quantify over.

## Results worth knowing

* **The cache can be trusted, in two senses.** If no device has two connections at once, a frame forwarded strictly
  before the cached expiry comes from the device holding the row, at the cached version, however long replies and
  caching take (`RelaySafety.ForwardedInputHoldsTheLease`). With any number of connections per device, if nobody steps in
  between a grant and its caching, a step ends the agreement of cache and table exactly when it is an *aliased release* (it
  deletes the row under a grant another connection of the device is using) or an *orphaned grant* (it takes effect, its
  answer is lost, and another connection has a usable grant cached for the session)
  (`RelaySafety.AgreementBreaksExactlyWhenSevered`). As long as neither happens, a cached grant is the row at the moment it
  is read for a frame (`RelaySafety.ReadGrantIsTheRow`), and the frame comes from the holder of the row, up to and
  including the expiry, if no statement touches the row until the frame is decided on (`RelaySafety.CacheRefinesTable`).
* **No hypothesis can be dropped.**
  * The relay treats the expiry as inclusive (`now.After(expiresAt)`), the table as exclusive (`expires_at <= now`). When
    others step in between a grant and its caching, a frame can be forwarded at that one instant after the row has passed
    to another device (`RelayLimits.ExpiryInstantIsShared`), and with one connection per device at that instant only
    (`RelayLimits.BackedExactlyBeforeTheExpiry`).
  * Versions restart at 1 when a row is deleted, so with two connections of one device a release still pending from the first
    can delete the row of the second (`RelayLimits.AliasedReleaseIsReachable`).
  * When the answer to a grant is lost, another connection of the device goes on forwarding at the version before
    (`RelayLimits.OrphanedGrantIsReachable`).
  * Between the reading of the cached grant and the decision, another connection of the device can be granted the next
    version (`RelayLimits.OvertakenReaderIsReachable`). As long as the row stays in the table, the frame agrees with it exactly
    when no acquire and no renewal of the session has been granted in between (`RelaySafety.BackedExactlyWhenUntouched`).
* **A refused holder cannot type on.** A renewal or release that the lease service ends with an error, other than a
  failure of the database, leaves the holder without its cached grant (`RelayDenial.DeniedThenTyping`); a failure of the
  database closes its connection. A connection that closes takes nothing from anybody else: every other daemon, watcher and
  cached grant is what it was (`Registry.RemovePeerExactly`).
* **Renewal.** The viewer subtracts a 30-second lead from a 30-second lease, so its timer always sits at its floor of
  5 seconds and `renew_after_seconds` is not used. What must stay within 24 seconds is the answer to one renewal, the
  timer's lateness and the next request together (`Renewal.RenewalNeverLapses`); two exchanges of 16 seconds each, back
  to back, lose the lease (`Renewal.TwentyFourSecondRoundTripsCanLapse`). Being in time for the row is not enough either: the relay
  drops its cached grant on the first frame after the expiry in whole seconds, up to a second before the row expires, and
  then refuses the renewal itself (`Renewal.TypingLateLosesTheLease`, `RenewalInPlace.TypedThenRefused`). Exactly: a chain
  holds if and only if each renewal is executed strictly within the time to live of the grant before it and no frame of the
  holder was decided on after that grant's cached expiry, whatever other devices try meanwhile
  (`Renewal.ChainHoldsExactlyInTime`, and with viewer, relay and rivals in place `RenewalInPlace.KeepRenewing`).
* **The login limiter's sweep** is unobservable exactly when a bucket refills before it can be swept, up to one clock tick
  (`LoginLimiter.EvictionUnobservableExactlyWhenRefilled`), which 5 per minute with bursts of 5 satisfies.
  The limiter is neither too lenient nor too strict: a request is let through if and only if, for every stretch of time
  ending with it, it and those let through before it for its key number at most 5 plus one for every 12 seconds
  (`LoginLimiter.LoginAllowedExactly`).
* **The Go frame decoder** computes its slice bound in 32 bits; it panics exactly on buffers that hold an announced header
  ending at or past 4 GiB (`FrameCodec.SliceBoundWrapsExactlyPast4GiB`, with such a buffer in `FrameCodec.SliceBoundWraps`).
  This is about the function: nothing in the repository raises the message size limit of its WebSocket library, so no such
  buffer comes through the relay.
* **Stopping the viewer's supervisor** reports `closed` at once, but that does not last if an attempt is under way or a
  connection open. A stopped attempt that fails, and a stopped connection that closes, are still recorded and leave the
  supervisor `reconnecting` with nothing running (`Reconnect.StoppedThenFailed`); a stopped attempt that succeeds leaves it
  `connected`, with the connection open (`Reconnect.StoppedThenConnected`). It stays closed whatever follows, short of a start
  or a retry, if and only if its loop was asleep or not running at the stop (`Reconnect.StaysClosedExactlyWhenIdle`).
* **A start cut off between creation and saving** leaves a session that control takes for live and the host does not know.
  This happens exactly when the answer to the creation is lost, or when control still has the new session and a failed launch
  cannot be reported, the PATCH to `running` gets no good answer, or the session cannot be saved
  (`Reconcile.StrandedExactlyWhenCutOff`, with an example in `Reconcile.StrandedByLostAnswer`). The promise about saved
  sessions does not reach such a session, and neither sweeps nor attempts to end it touch it (`Reconcile.StrandedForGood`).
* **Re-push attempts never repeat a size, actual pushes can:** when the snapshot of the attempt in between fails
  (`PaneMonitor.LostSnapshotRepeatsAPush`), and not as long as none fails (`PaneMonitor.NoFailureNoRepetition`).

## Model

| member | source | states |
|---|---|---|
| Base.WholeSeconds | go/internal/relaycontrol/server.go:158-167 | an expiry sent in whole seconds is never later than the stored one and less than a second earlier |
| LeaseTable.Table.GetActiveControlLease | go/gen/sqlc/control_leases.sql.go:30-54 | the row of the session, if it expires strictly after `now` |
| LeaseTable.Table.UpsertControlLease | go/gen/sqlc/control_leases.sql.go:121-144 | the conditional insert-or-update and the row it returns, as specified by `Execute`; other sessions' rows stay |
| LeaseTable.Table.RenewControlLease | go/gen/sqlc/control_leases.sql.go:83-119 | the conditional update and the row it returns, as specified by `Execute` |
| LeaseTable.Table.ReleaseControlLease | go/gen/sqlc/control_leases.sql.go:56-81 | the conditional delete and the row it returns, as specified by `Execute` |
| LeaseTable.Table.DeleteControlLeaseBySession | go/gen/sqlc/control_leases.sql.go:14-28 | after it the session has no row, and every other row is as before |
| LeaseTable.OtherSessionsUntouched | go/gen/sqlc/control_leases.sql.go:14-144 | no statement touches the row of another session |
| LeaseTable.UpsertExactly | go/gen/sqlc/control_leases.sql.go:121-144 | an upsert is refused exactly when another device has an unexpired row; a granted one writes version 1 or one more than before, and a refused one changes nothing |
| LeaseTable.RenewExactly | go/gen/sqlc/control_leases.sql.go:83-119 | a renewal succeeds exactly for the holder at the current version before the expiry, keeps device and grant time, and moves version and expiry on |
| LeaseTable.DeletionsExactly | go/gen/sqlc/control_leases.sql.go:14-81 | entry by entry: a release takes the row out exactly for its own device and version and returns it, the delete by session always; neither changes anything else of the session |
| LeaseTable.HandoverExactlyWhenExpired | go/gen/sqlc/control_leases.sql.go:136-142 | a surviving row changes device if and only if another device's upsert finds it expired by that upsert's own clock; the new grant time is then no earlier than the old expiry |
| LeaseTable.ReleaseDeletesOnlyItsOwnLease | go/gen/sqlc/control_leases.sql.go:56-62 | a release can delete only the row of its own session, device and version |
| LeaseTable.ExpiryWrittenByGrant | go/gen/sqlc/control_leases.sql.go:83-144 | every expiry ever seen in the table was written by an earlier grant of the run |
| LeaseTable.ExpiryNeverDecreases | go/gen/sqlc/control_leases.sql.go:83-144 | with clocks that do not run backwards and a fixed time to live, the expiry of a row that stays in the table never decreases |
| LeaseTable.HeldUntilExpiry | go/gen/sqlc/control_leases.sql.go:83-144 | after a grant its device holds the row at least until the granted expiry, unless a grant at or after that expiry has come |
| LeaseTable.NoOtherDeviceBeforeExpiry | go/gen/sqlc/control_leases.sql.go:83-144 | exclusivity over runs: no other device is granted the session before an expiry already handed out, unless the row was deleted in between |
| LeaseTable.VersionCountsGrants | go/gen/sqlc/control_leases.sql.go:121-144 | within one lifetime of the row the version is the number of grants so far, starting at 1 |
| LeaseTable.VersionNeverDecreases | go/gen/sqlc/control_leases.sql.go:83-144 | within one lifetime of the row the version never goes back |
| LeaseTable.VersionSpentOnce | go/gen/sqlc/control_leases.sql.go:56-92 | compare-and-swap: of two successful renews or releases that present the same version, the row was deleted in between |
| LeaseService.AcquireIsLinearizable | go/internal/control/leases.go:72-93 | whatever is committed between Acquire's read and its upsert, result and final table are those of one atomic acquire at the read or at the upsert |
| LeaseService.AcquireLinearizesInHistory | go/internal/control/leases.go:72-93 | in a history of any statements before, between and after, a two-step acquire can be replaced by one statement at a point between its steps, with the same result and the same table at every later time |
| LeaseService.AcquireNeverSteals | go/internal/control/leases.go:72-93 | a successful acquire hands out a full time to live and takes no unexpired row of another device; a refused one leaves the table alone and had such a row in its way |
| LeaseService.RefusalIsTheFirstCause | go/internal/control/leases.go:173-203 | each of the errors before the table is reached occurs if and only if its cause is the first one present; only a known actor with a known device, on a session that is running or idle, gets through |
| LeaseService.Service.constructor | go/internal/control/leases.go:44-59 | a time to live that is not positive becomes 30 seconds |
| LeaseService.Service.Acquire | go/internal/control/leases.go:61-94 | success means a known actor and device and a session that is running or idle; which check refuses and with which error, when the table is untouched, and otherwise the two-step acquire with others' statements in between |
| LeaseService.Service.Renew | go/internal/control/leases.go:96-125 | succeeds exactly for the holder at the current version of an unexpired row, with actor, device and session in order; keeps the grant time, moves the version on by one and the expiry to a full time to live from now; otherwise the error and an untouched table |
| LeaseService.Service.Release | go/internal/control/leases.go:127-153 | removes exactly the holder's row at the current version, expired or not, with actor, device and session in order; otherwise the error and an untouched table |
| Registry.AddWatcherKeepsConsistent | go/internal/relay/registry.go:68-79 | adding a watcher keeps the four maps consistent and takes no watch away |
| Registry.SetControllerKeepsConsistent | go/internal/relay/registry.go:88-98 | caching a grant keeps the maps consistent if and only if the peer watches the session |
| Registry.ClearControllerKeepsConsistent | go/internal/relay/registry.go:100-108 | clearing keeps the maps consistent and takes out the entry of that session and peer and no other |
| Registry.RemovePeerKeepsConsistent | go/internal/relay/registry.go:137-161 | removing a peer keeps the maps consistent, leaves no mention of it, and touches nobody else's watches |
| Registry.NobodyLeftMeansEmpty | go/internal/relay/registry.go:137-161 | a consistent registry that mentions no peer is the empty one |
| Registry.SetDaemonExactly | go/internal/relay/registry.go:56-60 | the session has this daemon; other sessions keep theirs, and watches and cached grants stay |
| Registry.AddWatcherExactly | go/internal/relay/registry.go:68-79 | both watch maps gain exactly that pair; daemons and cached grants stay |
| Registry.SetControllerExactly | go/internal/relay/registry.go:88-98 | the grant is filed under its session with peer, version, expiry and token; the other entries, daemons and watches stay |
| Registry.ClearControllerExactly | go/internal/relay/registry.go:100-108 | a cached grant goes exactly if it is of that session and peer; the others stay as they are, and so do daemons and watches |
| Registry.RemovePeerExactly | go/internal/relay/registry.go:137-161 | for every session and every peer: a peer is the daemon, a watcher or the cached controller of the session afterwards if and only if it was before and is not the one that went; grants that stay are unchanged |
| Registry.ConnectionRegistry.constructor | go/internal/relay/registry.go:47-54 | the new registry is empty and consistent |
| Registry.ConnectionRegistry.SetDaemonPeer | go/internal/relay/registry.go:56-60 | registers the daemon and changes nothing else |
| Registry.ConnectionRegistry.AddWatcherPeer | go/internal/relay/registry.go:68-79 | both watch maps gain the pair, also when either entry did not exist |
| Registry.ConnectionRegistry.SetControllerPeer | go/internal/relay/registry.go:88-98 | caches the grant with its peer and token and changes nothing else |
| Registry.ConnectionRegistry.ClearControllerPeer | go/internal/relay/registry.go:100-108 | drops the entry only when it is this peer's |
| Registry.ConnectionRegistry.WatchersFor | go/internal/relay/registry.go:117-130 | the watchers of the session, each exactly once |
| Registry.ConnectionRegistry.RemovePeerEntries | go/internal/relay/registry.go:137-161 | the three deleting loops together leave exactly what does not point at the peer, no empty watcher set, and return exactly the cached grants it held, each once |
| RelayServer.Server.constructor | go/internal/relay/registry.go:47-54 | registry and table start empty, at the start of a run of the transition system |
| RelayServer.Server.Accept | go/internal/relay/server.go:35-51 | a new connection is ready for its first message, and nothing else changes |
| RelayServer.Server.HandleSessionOnline | go/internal/relay/server.go:103-109 | a host's session gets its daemon; a message without session id closes the connection |
| RelayServer.Server.HandleWatch | go/internal/relay/server.go:117-153 | exactly the allowed viewers of a session whose host is online become watchers; everybody else loses the connection; the transition system does the same |
| RelayServer.Server.HandleControlAcquire | go/internal/relay/server.go:283-312 | which check answers, what the table and the cache become, that a granted answer carries version and expiry of the row, that cache and table still agree, and that the transition system gets there too |
| RelayServer.Server.CallAcquire | go/internal/relay/server.go:297-301 | the granted or refused call behind it: the row, the cached grant and the answer are one and the same, or nothing changes |
| RelayServer.Server.WriteDenied | go/internal/relay/server.go:408-426 | a denied renewal or release drops the peer's own cached grant if and only if the reason is stale_lease, unauthorized, not_found or session_not_controllable |
| RelayServer.Server.HandleControlRenew | go/internal/relay/server.go:314-346 | only the cached grant can be renewed; success then depends on the row's expiry alone; answer, table and cache in every branch, with the four reasons of a denial that drop the cached grant; cache and table still agree; the transition system gets there too |
| RelayServer.Server.CallRenew | go/internal/relay/server.go:331-335 | the call behind it: before the row's expiry the row and the cached grant move on together, at or after it the cached grant is dropped and the table untouched |
| RelayServer.Server.HandleControlRelease | go/internal/relay/server.go:348-378 | only the cached grant can be released, and a release that reaches the table always takes it out of table and cache; answer, table and cache in every branch, with the four reasons of a denial that drop the cached grant; the transition system gets there too |
| RelayServer.Server.ForwardInput | go/internal/relay/server.go:380-406 | forwards if and only if sender, expiry, encoding, version and daemon are right; then the sender's device holds the row unexpired and the transition system forwards as well; an expired grant is dropped |
| RelayServer.Server.ReleaseAll | go/internal/relay/server.go:66-73 | one release per grant removes exactly the rows of the releases that get through |
| RelayServer.Server.Disconnect | go/internal/relay/server.go:55-74 | the peer is out of the registry, exactly its rows whose release got through are gone, cache and table still agree, and the transition system gets there too |
| RelayServer.GrantKeepsAgreement | go/internal/relay/server.go:297-301 | caching a grant at once with its statement keeps every cached grant equal to its row |
| RelayServer.DisconnectRun | go/internal/relay/server.go:55-74 | the whole cleanup is an undivided run: removal, one release after the other, exit |
| RelayDenial.OnlyRepositoryFailureBreaks | go/internal/relaycontrol/client.go:87-114 | of the errors of the lease service, sent as their reasons, exactly a repository failure is not taken for a denial |
| RelayDenial.AskInVain | go/internal/relay/server.go:408-426 | an error of the service seen by the holder: a repository failure closes the connection, any other is told as its reason, and the cached grant is gone unless that was "already controlled" |
| RelayDenial.DeniedThenTyping | go/internal/relay/server.go:314-426 | after a renewal or release of the cached grant that the service ends with an error, the next frame is forwarded if and only if the error was "already controlled" (with which neither call ends) and the frame is in order |
| RelaySimulation.AcquireGrantedRun | go/internal/relay/server.go:288-301 | check, statement and caching of an acquire are an undivided run to exactly that table and registry |
| RelaySimulation.AcquireRefusedRun | go/internal/relay/server.go:297-300 | a denied acquire changes nothing for any reason; one whose call breaks ends the message loop |
| RelaySimulation.RenewGrantedRun | go/internal/relay/server.go:324-335 | check, statement and caching of a renewal are an undivided run to exactly that table and registry |
| RelaySimulation.RenewRefusedRun | go/internal/relay/server.go:331-334 | a refused renewal leaves the table alone and drops the cached grant exactly for the four reasons |
| RelaySimulation.ReleasedRun | go/internal/relay/server.go:358-368 | check, statement and clearing of a release are an undivided run to exactly that table and registry |
| RelaySimulation.ReleaseRefusedRun | go/internal/relay/server.go:365-367 | the same for a refused release |
| RelaySimulation.InputRun | go/internal/relay/server.go:380-390 | reading the cache, deciding at the clock reading and dropping an expired grant are an undivided run |
| RelaySimulation.WatchRun | go/internal/relay/server.go:127-131 | a granted watch is an undivided run that adds the watcher |
| RelayProtocol.EveryRunIsCoherent | go/internal/relay/server.go:55-406 | over every interleaving: the watch maps mirror each other, no watcher set is empty, each cached grant's peer is connected and watches the session, and no newer grant of a peer is cached than its handler has read |
| RelayProtocol.StepKeepsConsistent | go/internal/relay/registry.go:56-161 | no step of any handler breaks the consistency of the four maps, although checks and changes are under separate locks |
| RelayProtocol.OtherHandlerKeepsOk | go/internal/relay/server.go:283-406 | what one handler has read about its own grant is not invalidated by a step of another connection |
| RelayProtocol.AllGoneMeansEmptyRegistry | go/internal/relay/server.go:55-74 | once every connection ever opened has gone, the registry equals the empty one |
| RelayProtocol.EveryMessageIsTaken | go/internal/relay/server.go:103-406 | what a connection waiting for a message can begin: the checks of each handler, and nothing else asked |
| RelayProtocol.EveryCallCanEnd | go/internal/relay/server.go:283-378 | a control call can take effect, answered or not, exactly when the table admits its statement at some clock reading up to now, and can be denied or break at any time |
| RelayProtocol.EveryHandlerCanGoOn | go/internal/relay/server.go:55-426 | no connection waits for another: whatever the others have done, every handler that is not out on a control call can take its next step, and the cleanup can go through |
| RelayProtocol.ClearingNeverClobbers | go/internal/relay/registry.go:100-161 | a cached grant disappears only by its own peer's cleanup or by that peer's handler clearing the very entry it had read |
| RelayProtocol.ReleasesNeverClobber | go/internal/relay/server.go:66-73 | a row disappears only by a release, and only a row held by the releasing connection's device |
| RelaySafety.EveryCacheIsSound | go/internal/relay/server.go:283-406 | with one connection per device, every usable cached grant is the row in the table or has expired, over every interleaving |
| RelaySafety.ForwardedInputHoldsTheLease | go/internal/relay/server.go:380-406 | with one connection per device and arbitrary delays, input forwarded before the cached expiry comes from the holder of the row at the cached version, before the row expires |
| RelaySafety.AgreementBreaksExactlyWhenSevered | go/internal/relay/server.go:283-406 | when nobody steps in between a grant and its caching, a step ends the agreement of cache and table if and only if it is an aliased release or an orphaned grant |
| RelaySafety.AliasedReleaseBreaksAgreement | go/internal/relay/server.go:66-73 | the direction of the above that shows an aliased release does the damage |
| RelaySafety.OrphanedGrantBreaksAgreement | go/internal/relay/server.go:297-301 | the same for a grant whose answer is lost while another connection uses its own |
| RelaySafety.EveryCacheAgrees | go/internal/relay/server.go:283-406 | over every run in which nobody steps in between a grant and its caching, without aliased releases and orphaned grants, every usable cached grant is the row in the table; input frames may be read and decided on at any distance |
| RelaySafety.AnsweredNeverOrphans | go/internal/relay/server.go:297-301 | when every grant is answered there are no orphaned grants |
| RelaySafety.OneConnectionNeverAliases | go/internal/relay/server.go:55-74 | one connection per device rules aliased releases out |
| RelaySafety.ReadGrantIsTheRow | go/internal/relay/server.go:381-385 | in such a run, the cached grant read for an input frame is the row in the table at that moment |
| RelaySafety.CacheRefinesTable | go/internal/relay/server.go:380-406 | cache refines table: input decided on up to and including the cached expiry comes from the device that holds the row, at the cached version, no later than the row's expiry, if no statement has touched the row since the cached grant was read, whatever else happened meanwhile |
| RelaySafety.BackedExactlyWhenUntouched | go/internal/relay/server.go:380-406 | as long as the row is not deleted in between, that agreement holds if and only if no acquire and no renewal of the session, by anybody, has been granted between read and decision |
| RelaySafety.VersionTellsTheGrants | go/gen/sqlc/control_leases.sql.go:83-144 | over any steps that leave the row in the table, it is the same row if no acquire and no renewal of the session was granted, and has a higher version otherwise |
| RelayLimits.ExpiryInstantIsShared | go/internal/relay/server.go:386-390 | a run, one connection per device and no release, lost answer or gap between read and decision, in which a frame is forwarded at the very expiry after the row passed to another device whose grant is not cached yet |
| RelayLimits.BackedExactlyBeforeTheExpiry | go/internal/relay/server.go:386-390 | over all runs with one connection per device, frames forwarded a given time before their cached expiry all come from the holder of the row if and only if that time is not zero |
| RelayLimits.AliasedReleaseIsReachable | go/internal/relay/server.go:66-73 | a run with two connections of one device in which the first one's pending release deletes the second one's row, and the second goes on forwarding |
| RelayLimits.OrphanedGrantIsReachable | go/internal/relay/server.go:297-300 | a run in which the answer to a grant is lost and another connection of the device forwards at the version before, although it reads and decides in one go |
| RelayLimits.OvertakenReaderIsReachable | go/internal/relay/server.go:381-386 | a run without release and without lost answer in which a frame is forwarded before its cached expiry at a version the table has left, because another connection was granted between read and decision |
| ViewerControl.RenewDelayIsTheFloor | web/app/src/session/control.ts:40-48 | with a lease of at most 30 seconds the renewal timer is always set to 5 seconds |
| ViewerControl.RenewalIsDue | web/app/src/session/control.ts:40-48 | for any expiry: the renewal is due 30 seconds before it, if that is at least 5 seconds away, and in 5 seconds otherwise |
| ViewerControl.Control.SetState | web/app/src/session/control.ts:27-31 | the callback hears of a state only when it is a change |
| ViewerControl.Control.RequestControl | web/app/src/session/control.ts:53-56 | sends one acquire and waits; version and timer stay |
| ViewerControl.Control.ReleaseControl | web/app/src/session/control.ts:58-64 | sends a release of the held version exactly when control is granted, and forgets version and timer |
| ViewerControl.Control.HandleEnvelope | web/app/src/session/control.ts:66-80 | a grant stores its version and sets exactly one timer; a denial or revocation forgets both; granted always means a version is at hand; the callback hears of it exactly when the state changes |
| ViewerControl.Control.RenewTimerFires | web/app/src/session/control.ts:44-47 | renews the latest version, and only while granted |
| ViewerControl.Control.OnConnectionDropped | web/app/src/session/control.ts:82-86 | no state, version or timer survives a dropped connection |
| ViewerControl.Control.CanSendInput | web/app/src/session/control.ts:88-88 | input is offered exactly while granted, and then a version is at hand |
| Renewal.OthersCannotTouch | go/gen/sqlc/control_leases.sql.go:56-144 | while a lease runs, no statements of other devices change its row |
| Renewal.RenewalInTimeSucceeds | go/internal/relay/server.go:314-346 | a renewal executed within the time to live, with no frame decided on after the cached expiry, succeeds, and table, cache and viewer agree on the next version |
| Renewal.OthersNeverExtend | go/gen/sqlc/control_leases.sql.go:56-144 | other devices can take a row away, but never leave it with its device under another expiry |
| Renewal.RenewalSucceedsExactlyInTime | go/internal/relay/server.go:324-390 | whatever other devices try meanwhile, a renewal succeeds if and only if it is executed before the row expires and no frame of the holder was decided on after the cached grant expired |
| Renewal.ChainHoldsExactlyInTime | go/internal/relay/server.go:324-390 | every renewal of a chain of any length succeeds if and only if each is executed strictly within the time to live of the grant before and none is preceded by a frame after that grant's cached expiry |
| Renewal.TypingLateLosesTheLease | go/internal/relay/server.go:386-390 | a renewal executed before the row expires that is refused because of one frame, and that would have succeeded without it |
| Renewal.PromptRoundSucceeds | web/app/src/session/control.ts:40-79 | 24 seconds for the legs around one timer are enough for success and for an unexpired cache entry |
| Renewal.RenewalNeverLapses | web/app/src/session/control.ts:40-79 | over any number of prompt rounds every renewal succeeds, versions count up by one, and each cached grant is still good when the next replaces it |
| Renewal.TwelveSecondRoundTripsArePrompt | web/app/src/session/control.ts:40-48 | punctual timers and round trips within 12 seconds suffice |
| RenewalInPlace.Meanwhile | go/internal/relay/server.go:283-406 | any frames of the holder and any attempts of other devices to acquire, handled by the relay in place: the table has run those attempts, and the link's entry is still cached with no frame late, or gone because a frame was late or an attempt came after the row's expiry |
| RenewalInPlace.RelayRenews | go/internal/relay/server.go:314-346 | after all that, the relay's handler grants exactly when the chain has a next link, makes of table and cache what that link says, and answers with its grant; otherwise the cached grant is not this connection's and the table is untouched |
| RenewalInPlace.RenewOnce | web/app/src/session/control.ts:40-79 | frames, rivals, timer, relay and answer together take viewer, cache and table from one link to the next exactly when the chain has one, and otherwise leave the viewer denied |
| RenewalInPlace.KeepRenewing | web/app/src/session/control.ts:40-79 | viewer and relay in place, over any number of rounds with frames of the holder and rivals' acquires in between: the viewer is still granted at the end if and only if each round was in time for the row and for the cached grant |
| RenewalInPlace.TypedThenRefused | go/internal/relay/server.go:324-390 | in whatever state the relay is, a frame after the cached expiry makes it refuse the renewal that follows, without a look at the table |
| Renewal.TwentyFourSecondRoundTripsCanLapse | web/app/src/session/control.ts:40-48 | a chain with punctual timers and every round trip under 24 seconds that loses the lease |
| Reconnect.BackoffWithinAFifth | web/app/src/bridge/reconnect.ts:35-42 | jitter and rounding move the delay by at most a fifth |
| Reconnect.BackoffIsJittered | web/app/src/bridge/reconnect.ts:35-42 | to the nearest millisecond, the delay is 1, 2, 5, 10 and then always 30 seconds times a factor that goes evenly from 0.8 to 1.2 with the random number |
| Reconnect.FifteenDelaysFit | web/app/src/bridge/reconnect.ts:1-2 | the shortest possible delays fit before 300 seconds if and only if there are at most 15 of them |
| Reconnect.SleepLastsLongEnough | web/app/src/bridge/reconnect.ts:124-133 | a sleep ends no later than the deadline, and otherwise lasts the schedule's least share |
| Reconnect.WakesAfterTheDelay | web/app/src/bridge/reconnect.ts:125-133 | the loop wakes after the jittered delay, at the deadline if that comes first, at once if it has passed |
| Reconnect.FiveFailuresAreRemembered | web/app/src/bridge/reconnect.ts:92-107 | the history is the latest five failures in order, or all of them if there are fewer |
| Reconnect.Supervisor.LoopHead | web/app/src/bridge/reconnect.ts:111-133 | from the loop head: stop, give up, sleep until the clamped back-off, or try at once; the deadline is 300 seconds off when it is set, and not moved afterwards |
| Reconnect.Supervisor.TimerFires | web/app/src/bridge/reconnect.ts:131-146 | an attempt begins only strictly before the deadline, never more than 15 since it was set; otherwise the loop gives up |
| Reconnect.Supervisor.RecordFailure | web/app/src/bridge/reconnect.ts:92-107 | the history is the last at most five of all failures ever |
| Reconnect.Supervisor.AttemptFails | web/app/src/bridge/reconnect.ts:99-122 | a failure is recorded and the loop goes on, gives up or, if stopped, ends; all invariants hold again |
| Reconnect.Supervisor.AttemptSucceeds | web/app/src/bridge/reconnect.ts:75-86 | the deadline is lifted and the attempt counter kept |
| Reconnect.Supervisor.ConnectionCloses | web/app/src/bridge/reconnect.ts:89-98 | a lost connection counts as a failure, starts a fresh deadline of 300 seconds, and is followed by the clamped back-off |
| Reconnect.Supervisor.Stop | web/app/src/bridge/reconnect.ts:156-165 | ends a sleep for good, leaves an attempt or connection to its next wait |
| Reconnect.Supervisor.Retry | web/app/src/bridge/reconnect.ts:166-173 | no deadline, counter at zero, and the next attempt at once unless stopped |
| Reconnect.Supervisor.Begin | web/app/src/bridge/reconnect.ts:152-155 | a start clears the stop and resumes with counter and deadline as they were |
| Reconnect.FailUntilGivenUp | web/app/src/bridge/reconnect.ts:111-149 | once a deadline is set and attempts keep failing, whatever the jitter and lateness, the loop ends in gave-up after at most 15 attempts, all begun before the deadline |
| Reconnect.LongestStruggle | web/app/src/bridge/reconnect.ts:111-149 | the bound is met: with the shortest jitter there are exactly 15 attempts |
| Reconnect.GoOn | web/app/src/bridge/reconnect.ts:73-109 | what a stopped supervisor makes of each event that can still come |
| Reconnect.StopAndGoOn | web/app/src/bridge/reconnect.ts:156-165 | a stop followed by any events leads where those rules say |
| Reconnect.StaysClosedExactlyWhenIdle | web/app/src/bridge/reconnect.ts:156-165 | after a stop the phase stays closed under every continuation without start or retry if and only if the loop was asleep or not running |
| Reconnect.StoppedThenFailed | web/app/src/bridge/reconnect.ts:99-108 | a supervisor stopped during an attempt that fails ends reconnecting, with nothing running |
| Reconnect.StoppedThenConnected | web/app/src/bridge/reconnect.ts:75-89 | a supervisor stopped during an attempt that connects ends connected, with the connection open |
| LoginLimiter.Limiter.Handle | go/internal/controlapi/middleware/rate_limit_login.go:54-69 | the in-place sweep, lookup and take are one served request of the specification, with its decision; afterwards the key has a bucket last used now, and every other key keeps its bucket exactly if that was used within the time to live |
| LoginLimiter.SweepForgetsOnlyFull | go/internal/controlapi/middleware/rate_limit_login.go:55-61 | every swept bucket would be full by now |
| LoginLimiter.SweepingDecidesAlike | go/internal/controlapi/middleware/rate_limit_login.go:38-76 | from any pair of matching states, the sweeping limiter and the one that never evicts decide every ordered request sequence alike |
| LoginLimiter.EvictionUnobservableExactlyWhenRefilled | go/internal/controlapi/middleware/rate_limit_login.go:31-69 | eviction is unobservable over all ordered request sequences if and only if burst times refill interval is at most the time to live plus one tick |
| LoginLimiter.LongRefillShows | go/internal/controlapi/middleware/rate_limit_login.go:31-69 | for every configuration beyond that, a request sequence that tells the two limiters apart |
| LoginLimiter.AllowedIsPaidFor | go/internal/controlapi/middleware/rate_limit_login.go:62-68 | conservation: requests let through were in the bucket or have been refilled meanwhile |
| LoginLimiter.WindowBoundKept | go/internal/controlapi/middleware/rate_limit_login.go:31-69 | for any configuration, any stretch lets at most a burst plus the refills in it through, for each key |
| LoginLimiter.LoginWindowBound | go/internal/controlapi/middleware/rate_limit_login.go:31-69 | at 5 per minute with bursts of 5: at most 5 plus one per 12 seconds, across any sweeps and recreated buckets |
| LoginLimiter.FoundIsTheTightest | go/internal/controlapi/middleware/rate_limit_login.go:62-68 | a bucket holds exactly what the tightest stretch so far leaves, and at most what any other does |
| LoginLimiter.AllowedExactlyWhenItFits | go/internal/controlapi/middleware/rate_limit_login.go:62-68 | for any configuration, of the limiter that never evicts: a request is let through if and only if counting it keeps every stretch that ends with it within a burst plus the refills in it |
| LoginLimiter.LoginAllowedExactly | go/internal/controlapi/middleware/rate_limit_login.go:31-69 | at 5 per minute with bursts of 5, sweeps and all: a request is let through if and only if, for every stretch of the run ending with it, those let through for its key before and it are at most 5 plus one per 12 seconds |
| LoginLimiter.SixthAttempt | go/internal/controlapi/middleware/rate_limit_login.go:31-69 | five attempts at once, and a sixth that is let through if and only if it comes at least 12 seconds later |
| ShellCommand.UnquoteQuote | go/internal/tmux/control.go:143-145 | unquoting inverts quoting for every string: one word, every character quoted, nothing changed |
| ShellCommand.QuoteReadsBack | go/internal/tmux/control.go:143-145 | the same in the middle of a word and with anything read before |
| ShellCommand.QuotesAreEscapedOneByOne | go/internal/tmux/control.go:143-145 | quoting goes character by character, and a single quote is closed, put in double quotes and reopened |
| ShellCommand.PlainIsUnescaped | go/internal/tmux/control.go:143-145 | a string without single quotes is quoted by putting it between two |
| ShellCommand.ValidShellVarName | go/internal/tmux/runner.go:322-337 | true exactly for letters, digits and underscores, not empty and not starting with a digit, with the characters written out |
| ShellCommand.CollectKeys | go/internal/tmux/runner.go:290-299 | exactly the valid names but for TERM, TMUX and TMUX_PANE, each once, in whatever order the map is iterated |
| ShellCommand.SortStrings | go/internal/tmux/runner.go:300-300 | the same keys; of two in the list, the earlier is a proper beginning of the later or has the smaller byte at the first difference |
| ShellCommand.BelowIsByFirstDifference | go/internal/tmux/runner.go:300-300 | the order is byte order: one string comes before another if and only if it is a proper beginning of it or is smaller at the first difference |
| ShellCommand.BuildShellCommand | go/internal/tmux/runner.go:289-316 | whatever order the map is iterated in, the command is the one text of the filtered entries in strictly ascending order, exec, the tool and the redirect |
| ShellCommand.AssignmentsWrittenOut | go/internal/tmux/runner.go:302-308 | two entries written out to the character |
| ShellCommand.CommandWrittenOut | go/internal/tmux/runner.go:309-315 | without entries the command is exec and the tool, with the redirect exactly when there is a path for it |
| ShellCommand.AscendingIsUnique | go/internal/tmux/runner.go:300-300 | the order of the assignments does not depend on map iteration |
| ShellCommand.AssignmentWordMeansEntry | go/internal/tmux/runner.go:303-308 | the shell takes the word as the assignment that was meant, with nothing left to expand in the value |
| ShellCommand.AssignmentsReadBack | go/internal/tmux/runner.go:302-308 | the lexer reads the assignments back as one word per entry |
| ShellCommand.RedirectReadsBack | go/internal/tmux/runner.go:311-314 | after any command that ends in complete tokens, the redirect reads back as descriptor 2, append and the path byte for byte |
| ShellCommand.EntriesAreReadFirst | go/internal/tmux/runner.go:302-310 | for every tool text at all, the shell first reads exactly the kept entries and the word exec |
| ShellCommand.CommandReadsBack | go/internal/tmux/runner.go:289-316 | round trip: lexing the command gives exactly the kept entries in order with values unchanged, exec, the tool's own tokens and the redirect |
| KeyInjection.InputArgs | go/internal/tmux/control.go:147-183 | the argument lists decode to exactly the payload, LF as CR, unmapped control bytes and DEL dropped, in order, with no empty and no adjacent literals |
| KeyInjection.OnlyOneWayToWrite | go/internal/tmux/control.go:147-183 | well-formed, compact argument lists that decode to the same bytes are the same, so that `InputArgs` is determined by what it delivers |
| KeyInjection.MeantByNumber | go/internal/tmux/control.go:165-180 | what each of the 256 bytes becomes, by its number |
| KeyInjection.TypeLs | go/internal/tmux/control.go:147-183 | the line "ls" and its end come out as one literal and one Enter, argument by argument |
| KeyInjection.Output.FlushLiteral | go/internal/tmux/control.go:152-158 | the pending literal joins the stream once and nothing is lost when it is empty |
| KeyInjection.Output.AppendKey | go/internal/tmux/control.go:160-163 | the key comes after everything before it |
| KeyInjection.Output.Accept | go/internal/tmux/control.go:165-180 | each byte adds exactly what is meant by it |
| KeyInjection.DeliveryOfPieces | go/internal/tmux/control.go:165-180 | what arrives does not depend on how input is cut into frames |
| KeyInjection.DeliveryIsStable | go/internal/tmux/control.go:165-180 | delivered input sent again arrives unchanged |
| KeyInjection.ExpandReturnsEveryLine | go/internal/tmux/control.go:103-109 | after expansion every line feed follows a carriage return |
| KeyInjection.CollapseUndoesExpand | go/internal/tmux/control.go:103-109 | collapsing inverts expanding for every content, with stray carriage returns too |
| KeyInjection.CollapseOfPieces | go/internal/tmux/control.go:103-109 | each CR LF becomes one LF, and what stands before and after it is collapsed for itself |
| KeyInjection.NothingToCollapse | go/internal/tmux/control.go:103-109 | content without CR LF is left alone, whatever bare line feeds and carriage returns stand in it |
| KeyInjection.ExpandOfPieces | go/internal/tmux/control.go:103-109 | expanding distributes over concatenation |
| KeyInjection.SnapshotWrittenOut | go/internal/tmux/control.go:98-109 | a bare and a full line end come out alike, behind the three sequences that clear the screen, byte by byte |
| KeyInjection.SnapshotLinesReturn | go/internal/tmux/control.go:98-109 | every line of a snapshot returns, and normalizing a snapshot's content again changes nothing |
| PaneMonitor.Monitor | go/internal/session/manager.go:1039-1075 | the debounced size is the value last read twice in a row, re-push attempts are the changes of that value, and failing readings and snapshots change nothing else |
| PaneMonitor.ChangesEndSettled | go/internal/session/manager.go:1053-1061 | the last re-push attempt is for the settled size |
| PaneMonitor.NoTwoPushesAlike | go/internal/session/manager.go:1053-1061 | no two successive re-push attempts carry the same size, and the first is not for the initial one |
| PaneMonitor.NoFailureNoRepetition | go/internal/session/manager.go:1058-1070 | as long as no snapshot fails, every attempt is pushed and no push repeats the one before it |
| PaneMonitor.LostSnapshotRepeatsAPush | go/internal/session/manager.go:1062-1066 | readings and a failing snapshot after which the same size is pushed twice in a row |
| PaneMonitor.PushedInTurn | go/internal/session/manager.go:1058-1070 | each attempt is pushed unless its own snapshot fails, and as the push that comes after those before it |
| PaneMonitor.SettledWasSeenTwice | go/internal/session/manager.go:1053-1061 | a settled size other than the initial one has been read twice in a row |
| PaneMonitor.GoodOfPieces | go/internal/session/manager.go:1047-1052 | a failed reading leaves no trace, and the others stay in order |
| PaneMonitor.SettledIsTheLatestPair | go/internal/session/manager.go:1053-1061 | the settled size is that of the latest two equal readings in a row, and the initial one as long as there are none |
| PaneMonitor.ChangesGrowByOneAtMost | go/internal/session/manager.go:1053-1061 | one more reading adds at most one attempt and takes none away |
| PaneMonitor.MonitorTable.Register | go/internal/session/manager.go:1083-1094 | the old monitor of the session is cancelled; at most one per session is neither cancelled nor gone |
| PaneMonitor.MonitorTable.Unregister | go/internal/session/manager.go:1099-1105 | a monitor that exits late does not remove a newer one |
| PaneMonitor.MonitorTable.StopMonitor | go/internal/session/manager.go:1110-1118 | afterwards every monitor the session ever had is cancelled or gone |
| Reconcile.Host.Reap | go/internal/session/manager.go:565-650 | rows are dealt with up to the one that needs missing credentials, each exactly as `ReapRow` says, with exactly those calls; the promise about saved sessions is kept |
| Reconcile.Host.ReapOne | go/internal/session/manager.go:596-647 | one row's heartbeat or PATCH and deletion are the specified transition, and no other row moves |
| Reconcile.Host.EndSession | go/internal/session/manager.go:730-783 | one PATCH to exited and the same transition as reaping a gone pane; it succeeds exactly when the call is answered, and otherwise leaves the row; the promise is kept |
| Reconcile.Host.StartSession | go/internal/session/manager.go:293-415 | from what happens to credentials, to each control call, to launch, saving and announcing: what is left at control and locally, which calls are made, that the session is stranded exactly when the start is cut off, that it is saved exactly when everything up to saving works, and that it is saved also if only the announcement fails |
| Reconcile.StartedExactly | go/internal/session/manager.go:293-415 | what a start leaves on both sides, case by case with the statuses written out |
| Reconcile.StrandedExactlyWhenCutOff | go/internal/session/manager.go:341-409 | a start leaves a session live at control and unknown to the host if and only if the answer to the creation is lost, or control still has the session and a failed launch cannot be reported, the PATCH to running gets no good answer, or saving fails |
| Reconcile.StrandedForGood | go/internal/session/manager.go:565-783 | neither a sweep nor an attempt to end it touches a stranded session |
| Reconcile.StrandedByLostAnswer | go/internal/session/manager.go:341-352 | a start whose creation is not answered leaves control with a session that is starting |
| Reconcile.ReapingSettles | go/internal/session/manager.go:601-647 | a row leaves the store only when control has it exited or does not have it, in any weather |
| Reconcile.ReapingIsCautious | go/internal/session/manager.go:586-600 | a failed probe or an unreachable control leaves the row alone; exited is written only for a pane definitely gone |
| Reconcile.LeavesTheStoreExactly | go/internal/session/manager.go:601-647 | a reaped row leaves the store if and only if the deletion works, control answers, and the pane is gone or control does not have the session |
| Reconcile.ControlShowsExactly | go/internal/session/manager.go:601-643 | what control shows afterwards: the local status of a live pane, exited for a gone one, if the call arrives and control has the session; otherwise what it showed before |
| Reconcile.OtherStatusesAreLeftAlone | go/internal/session/manager.go:582-584 | a row that is not running, starting or idle is left alone |
| Reconcile.EndOrReap | go/internal/session/manager.go:712-729 | of two hosts in the same situation one ends a session and the other reaps it: they end with the same stores, the same control rows and the same calls if and only if the session is active and its pane definitely gone, or neither has credentials |
| Reconcile.NextReapingGetsThrough | go/internal/session/manager.go:642-644 | a row kept after any failure is dropped by the next sweep that gets through |
| Reconcile.PatchedExactlyWhenMissing | go/internal/session/manager.go:582-643 | a sweep PATCHes exactly the running, starting or idle rows it reaches whose probe was definitely missing, and sends a heartbeat with the local status for exactly those whose pane is alive |
| Reconcile.SweepKeepsPromise | go/internal/session/manager.go:581-649 | a sweep cut off anywhere adds nothing to the store and settles whatever leaves it |
| RelaySupervisor.ComputeBackoff | go/internal/relayclient/backoff.go:19-28 | for a non-negative index: 1, 2, 5, 10 and then always 30 seconds, times a factor that goes evenly from 0.8 to 1.2 with the random number, cut to the nanosecond |
| RelaySupervisor.Supervisor.HandleFailure | go/internal/relayclient/supervisor.go:183-219 | the loop ends exactly at the third authentication failure in a row, with one shutdown request; otherwise the counters agree with the record again |
| RelaySupervisor.Supervisor.Publish | go/internal/relayclient/supervisor.go:237-247 | a new client is published, authentication failures start over, attempts do not |
| RelaySupervisor.Supervisor.Withdraw | go/internal/relayclient/supervisor.go:254-268 | lost or cancelled, the client is withdrawn; only a loss counts as an attempt |
| RelaySupervisor.Supervisor.BackoffSleep | go/internal/relayclient/supervisor.go:276-280 | always called with at least one attempt, so its schedule index is never negative |
| RelaySupervisor.Supervisor.TakeTurn | go/internal/relayclient/supervisor.go:177-273 | one turn, for every outcome: at the next loop head Attempt equals failures plus lost connections and AuthFailures the trailing run of authentication failures |
| RelaySupervisor.Supervisor.Run | go/internal/relayclient/supervisor.go:175-274 | Run ends closed and with no client published; a shutdown is requested once if the third authentication failure in a row ended it, and never otherwise |
| RelaySupervisor.FailuresInARowAllCount | go/internal/relayclient/supervisor.go:303-310 | authentication failures one after the other all count, whatever preceded them |
| RelaySupervisor.CutShort | go/internal/relayclient/supervisor.go:175-274 | the first turn is followed by a second one if and only if the context was not cancelled in it, before or during its sleep |
| RelaySupervisor.ThreeRefusals | go/internal/relayclient/supervisor.go:183-219 | after two refusals for authentication a third failure asks for a shutdown if and only if it is one as well |
| FrameCodec.EncodeBinaryFrame | go/internal/relayproto/frame.go:23-37 | the buffer filled in place is the frame's layout |
| FrameCodec.EncodeFrame | web/app/src/protocol/frame.ts:14-24 | the viewer's buffer is the same layout byte for byte |
| FrameCodec.FillFrame | go/internal/relayproto/frame.go:29-35 | the writes of magic, version, type, length, header and payload fill the buffer and do not disturb each other |
| FrameCodec.LayoutWrittenOut | go/internal/relayproto/frame.go:10-35 | a frame written out: the magic TMX1, version 1, the type, the length with its most significant byte first, header, payload |
| FrameCodec.BigEndianReadsBack | go/internal/relayproto/frame.go:33-44 | the length field survives the trip for every 32-bit length |
| FrameCodec.BigEndianIsOnto | web/app/src/protocol/frame.ts:46-46 | every four bytes are the encoding of the length they are read as |
| FrameCodec.DecodersInvertEncoders | go/internal/relayproto/frame.go:23-58 | each decoder inverts both encoders for every header under 4 GiB it takes, the Go one up to where its bound wraps |
| FrameCodec.ComplaintsExactly | web/app/src/protocol/frame.ts:31-60 | which complaint each decoder makes of a buffer, if and only if its cause is the first one present |
| FrameCodec.DecodersAgree | web/app/src/protocol/frame.ts:31-60 | below 4 GiB: of a buffer the viewer accepts, the host sees the same frame unless its JSON decoder refuses the header; of a buffer the host accepts, the viewer sees the same frame unless version, type or header are not its own |
| FrameCodec.AcceptedBuffersReencode | go/internal/relayproto/frame.go:39-58 | an accepted version-1 buffer is re-encoded to itself |
| FrameCodec.SliceBoundWrapsExactlyPast4GiB | go/internal/relayproto/frame.go:44-56 | the 32-bit slice bound gives way exactly when the announced header ends at or past 4 GiB inside the buffer |
| FrameCodec.SliceBoundWraps | go/internal/relayproto/frame.go:44-56 | a buffer on which it does |

## Left out

- The overflow of the 64-bit `lease_version`: versions are unbounded integers.
- Fractions of a microsecond in Go's lease clock; the column does not keep them.
- The REST lease endpoints and DeleteControlLeaseBySession behind the relay's cache: they change the table without the relay
  knowing, so the cache statements are about leases that change only through one relay. The delete is a statement in all
  table lemmas.
- "No lease on a session that is not controllable": heartbeats can change a status without dropping the lease.
- A relay without an authorizer (`auth == nil`).
- HTTP, gRPC, WebSocket, Postgres and tmux themselves: their outcomes are parameters. A control call of the relay takes effect
  and is answered, takes effect with its answer lost, is denied, or fails without effect.
- The lease service inside the relay model: an acquire there is one upsert, which `LeaseService.AcquireIsLinearizable`
  justifies; its refusals are denials with an arbitrary reason, and RelayDenial says which reasons they come with.
- RelayServer.Server.HandleControlAcquire: and the other handlers run without interruption; what other connections can do in
  between is the subject of RelayProtocol and RelaySafety.
- RelaySafety.CacheRefinesTable: assumes that nobody steps in between a grant and its caching, that no release is aliased and
  no grant orphaned, and that the row is not touched between read and decision; RelaySafety.ForwardedInputHoldsTheLease does
  without all of these and assumes one connection per device instead.
- RelaySafety.ForwardedInputHoldsTheLease: stops strictly before the cached expiry, because at that instant the statement is
  false, as RelayLimits.BackedExactlyBeforeTheExpiry says.
- RenewalInPlace.KeepRenewing: between two renewals the holder types and other devices try to acquire; the holder does not ask
  for control anew, release it or disconnect, and every renewal is answered. What the relay does in those cases is in
  RelayServer.
- Renewal.RenewalNeverLapses: bounds the legs around one timer, because the bound of 24 seconds on each round trip does not
  suffice, as Renewal.TwentyFourSecondRoundTripsCanLapse shows.
- Access tokens, JWT, passwords and cookies: a token is the device it was issued to.
- Forwarding of output and snapshots to watchers, resize messages, and the grid hint of a watch request.
- JSON: a frame header is opaque bytes, and whether a decoder takes it is a parameter of FrameCodec.DecodersAgree. The two do
  differ: the viewer's text decoder skips a leading byte order mark, which the host's JSON decoder refuses, and a number out
  of range in an extra field, such as 1e999, is taken by the viewer and refused by the host.
- KeyInjection.InputArgs: says what the argument lists decode to. What tmux makes of an argument, such as taking a semicolon at
  its end for a command separator, is not part of this model.
- `Date.parse` of an expiry that is no date, and the detail text of the viewer's state callback.
- Reconnect.Supervisor.Retry: one loop at a time; starting or retrying while a loop is still running makes two, whose
  interleaving is not modelled. `lastConnectedAt` and the connection handle are left out.
- `rate.Limiter` itself: it is taken to be the standard token bucket, full at the start, asked at the same `now` as the sweep.
  Its floating-point token count is exact here.
- Floating-point rounding of the jittered delays: they are computed in the reals.
- ShellCommand.CommandReadsBack: a tool text that the lexer does not read by itself (expansions, separators, comments, open
  quotes) has ShellCommand.EntriesAreReadFirst, which stops where the tool begins.
- Reserved words, aliases and the rest of the shell's grammar after the tokens.
- Overlapping Reap and EndSession calls, in which a late heartbeat can overwrite an exited status.
- The order in which the local store lists sessions, errors in loading a session other than its absence, and the output
  pipe and the snapshot that accompany a started session.
- Error texts, timestamps of the next retry, handlers and the reconnect callback of the host's supervisor; whether an
  error is an authentication error is an input.
- The reconnect loop of the host never ends by itself: Run is modelled over a finite list of turns after which the context is
  cancelled.
- Special keys of the viewer, cursor position in snapshots, generation numbers, `captureStable`, token refresh in the browser,
  pages, command line, configuration and generated code.
