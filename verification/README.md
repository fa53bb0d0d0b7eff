# go-sessions: a verified model of the session engine

The project models the server side of go-sessions: sessions cached in memory and written through
to a list of databases, expiry timers, the slice-backed key-value store, one-shot flash messages,
the locks around them, and the computation of the cookie's Domain. `dafny verify dfyconfig.toml`
checks all of it.

How it is laid out:

- `entries.dfy`, `ordered_map.dfy`, `memstore.dfy`: the store. `MemStore.Store` is the slice with
  its buffer, length and spare capacity; `OrderedMaps` is the map-with-insertion-order it refines.
- `merge.dfy`, `database.dfy`, `redis.dfy`, `payload_pool.dfy`, `synclog.dfy`: what databases
  hold, what a load makes of several copies, the leveldb and redis backends, the payload pool and
  the stream of payloads.
- `machine.dfy`: the engine as a step machine (clock, sessions, registered ids, databases,
  timers). `requests.dfy` says what its actions do, one by one, without naming the functions they
  are made of; `agreement.dfy`, `recovery.dfy`, `expiry.dfy` and `flashes.dfy` prove what holds over
  every run of it.
- `mixed.dfy`: the same engine over leveldb and redis side by side.
- `lifetime.dfy`, `provider.dfy`, `client.dfy`: the same engine as objects that change in place.
  The provider carries the machine state it stands for as a ghost field, and each method is shown
  to take exactly the machine's step. `Clients.Client.Serve` runs any sequence of actions on the
  objects and ends in the state of the machine's run, so what is proved of runs holds of sequences
  of these calls.
- `writers.dfy`, `locks.dfy`, `isolation.dfy`: interleavings of writers on one session, of threads
  over the locks, and of callers over shared containers.
- `cookie_domain.dfy`: the Domain attribute, against section 5.1.3 of RFC 6265.

Where the code and its documentation differ, the model follows the code:

- database.go:20-21 says the first non-empty load is used; the merge is last-wins per key
  (`Merging.MergeIsLastWins`). `Merging.SecondLoadWins` breaks the documented rule,
  `Merging.FirstLoadWinsIff` says when the code keeps to it.
- database.go:81-82 says clear and destroy payloads contain nothing; they keep the immutable flag
  of the entry the pooled payload last carried (`PayloadPool.ClearCarriesOldFlag`,
  `PayloadPool.FlagReachesAnotherSession`).
- sessions.go:94 and sessions.go:109 say a two-level subdomain keeps one level; the code always
  keeps the last two labels (`CookieDomain.ShortenedHostHasOneDot`).
- provider.go:188-190 and 177-179 promise that a destroy reaches the databases; it does so only
  for a session that is in memory (`Recovery.DestroyReachesDatabasesIff`).
- lifetime.go:44 says Shift resets the lifetime; it resets the timer and leaves the stored time,
  so a prolonged life does not survive a restart (`Recovery.ProlongedLifeSurvivesRestartIff`).

Several tempting statements are false of the code. For each there is the exact condition under
which it holds, and an input or a run that breaks it:

- an operation gives its locks back: `Locks.BalancedUnlessHitOrPanic`; broken by
  `Locks.PeekKillsProvider` and `Locks.PanicKillsProvider`;
- concurrent writers leave the databases up to date: `Writers.ConvergesIffLatestCapturedLast`;
  broken by `Writers.OverlappingPayloadsDiverge`;
- a prolonged session survives a restart: `Recovery.ProlongedLifeSurvivesRestartIff`; broken by
  `Recovery.ProlongedLifeIsLost`;
- a session with an expiry has a timer: `Recovery.NoTimerExactlyAtTheInstant`; broken by
  `Recovery.SessionWithoutTimer`;
- a destroy empties the databases: `Recovery.DestroyReachesDatabasesIff`; broken by
  `Recovery.DestroyMissesStoredSession`;
- any session agrees with its stored copies: `Recovery.EmptyIdAgreesOnlyWhenEmpty`; broken by
  `Recovery.EmptyIdLosesItsData`;
- a clear or destroy payload contains nothing: `PayloadPool.ClearCarriesOldFlag`; broken by
  `PayloadPool.FlagReachesAnotherSession`;
- a session is loaded from the first non-empty copy: `Merging.FirstLoadWinsIff`; broken by
  `Merging.SecondLoadWins`.

## Model

| member | source | states |
|---|---|---|
| `Agreement.EveryRunAgrees` | provider.go:97-133 | Cache agreement: in every run from a fresh process over databases written by Sync, for every live session none of whose stored copies is past its expiry, merging the copies gives exactly the in-memory keys, order and values (flags erased), and the expiry stored is the session's own or none |
| `Agreement.CacheAgreement` | session.go:263-292 | The same from any agreeing state, so agreement is an invariant of every continuation |
| `Agreement.StepAgreesOn` | database.go:94-128 | Every single action keeps one session's agreement |
| `Agreement.MirroredAgrees` | provider.go:109-123 | When every database holds the session's own store, the merge of those copies is that store |
| `MixedBackends.EveryMixedRunAgrees` | sessiondb/redis/database.go:80-99 | Cache agreement over any mixture of leveldb and redis databases, for runs that load no session in the final sub-second window of one of its redis copies: what is left merges to what memory holds unless a copy is past its expiry or its time to live |
| `MixedBackends.StepStandsFor` | provider.go:97-133 | Each action takes the mixture through the same memory as databases that never forget |
| `Clients.Client.ServeInAgreement` | session.go:263-292 | Cache agreement of the objects after any calls that register databases first and write through registered sessions: each live session's store is what its databases would restore |
| `Recovery.RestartRecovery` | provider.go:38-57 | After losing memory in any agreeing state and any run that does not restart the session, reading it gives the lifetime of the first unexpired stored time; if no copy expired, keys, order and values are restored, and if the databases mirror the session its own expiry with a timer for exactly that time; if all copies are expired or missing it starts empty with a new life |
| `Recovery.MirroredMerge` | provider.go:97-133 | A session mirrored in every database loads as itself with its own expiry until that has passed, and as nothing afterwards |
| `Recovery.ReadMisses` | provider.go:164-175 | A read of an id not in memory yields the merge of the copies, no flashes, and the lifetime that the first stored time or the configuration prescribes |
| `Requests.StartCreates` | sessions.go:144-161 | Whenever the cookie names no session in memory, Start registers one with the merge of the stored copies, no flashes, and the life of the first unexpired stored time or else one that ends exactly the configured duration from now, with its timer; it is new if and only if there was no cookie and the merge is empty; nothing else changes |
| `Requests.InitCreates` | provider.go:136-142 | The same for Init, also over a session in memory, and the session is not new |
| `Requests.ReadCreates` | provider.go:164-175 | The same for a Read of an id that is not in memory |
| `Requests.LiveSessionIsKept` | provider.go:164-171 | A live session read or started by its cookie keeps values, life and newness, loses exactly its fetched flashes, and no timer, database or other session changes |
| `Requests.WriteReachesEveryDatabase` | session.go:263-292 | After a write through any handle the store is the one after the write, every database holds that store and the stored time under the id, the session is still new only if it was and an absent key was deleted, and nothing else changes |
| `Requests.RestartLeaves` | sessiondb/leveldb/database.go:75-99 | A restart empties memory and removes from the databases that clean up exactly the expired entries under non-empty ids |
| `Requests.DestroyAllReachesLiveIdsOnly` | provider.go:191-197 | Ids that only databases hold stay there when all sessions are destroyed |
| `Recovery.NoTimerIffDueBetweenReadings` | provider.go:43-57 | The clock is read at the load and again in Revive; a session is created with an expiry but no timer if and only if the first unexpired stored time lies between the two readings |
| `Recovery.NoTimerExactlyAtTheInstant` | lifetime.go:31-41 | With a single reading that is exactly the instant of the stored time |
| `Recovery.SessionWithoutTimer` | lifetime.go:37-40 | A stored session read at exactly its stored time is held with no timer to end it |
| `Recovery.ProlongedLifeSurvivesRestartIff` | lifetime.go:44-48 | Over any punctual run that holds a mirrored session and does not write it, by whatever prolonging, it stays and no timer is overdue; after a restart it comes back as it was if and only if it holds nothing, never expires, or its original stored time has not passed |
| `Recovery.ProlongedLifeIsLost` | provider.go:147-161 | A session of life ten, prolonged to a hundred, is empty after a restart at eleven, a moment the run could not have reached without the prolonging |
| `Recovery.EmptyIdAgreesOnlyWhenEmpty` | sessiondb/leveldb/database.go:112-131 | The session with the empty id is never loaded back, so it agrees with the databases if and only if it holds nothing |
| `Recovery.EmptyIdLosesItsData` | sessiondb/leveldb/database.go:150-166 | One write to the session with the empty id, in an otherwise good run, breaks the agreement |
| `Recovery.DestroyedDataDoesNotReturn` | provider.go:180-202 | After Destroy, DestroyAll or a timer, no database holds the session in any later run without old-handle writes, and reading it yields no values and no flashes |
| `Recovery.DestroyLeavesOthers` | provider.go:180-186 | Destroy changes nothing of any other session in memory, timers or databases |
| `Recovery.DestroyReachesDatabasesIff` | provider.go:180-186 | After Destroy no database holds the id if and only if it was in memory or not stored at all |
| `Recovery.DestroyMissesStoredSession` | provider.go:180-186 | In a fresh process a stored session survives its destroy |
| `Recovery.OldHandleResurrects` | session.go:263-292 | A write through the handle of a destroyed session puts the whole session back, and the next read returns it unless its stored time has passed |
| `Expiry.LiveSessionsHaveTheirTimers` | provider.go:136-161 | Over every run each registered session's timer stays pending under its own id, and with punctual timers none is ever overdue |
| `Expiry.LeavesOnlyAtEarliestDeadline` | provider.go:38-41 | A session not explicitly destroyed leaves the map only when a timer fires, at the earliest deadline then pending for its id |
| `Expiry.LeavesByEveryPendingDeadline` | provider.go:199-202 | Any timer pending for an id, also one left by a destroyed session, takes that id out of the map exactly at its deadline, however much the session is prolonged, unless that very timer is reset |
| `Expiry.StaysUntilEarliestDeadline` | lifetime.go:20-48 | Neither destroyed, replaced nor shortened, a session is in the map at every moment before the earliest deadline pending for its id |
| `Expiry.ProlongedTimer` | provider.go:147-161 | UpdateExpiration with a positive duration sets the timer of a live session going with a deadline exactly that duration from now; every other timer and all else is unchanged, and in every other case nothing changes |
| `Expiry.ProlongedSessionLeavesOnTime` | lifetime.go:44-48 | With no earlier deadline pending for its id, a prolonged session stays until now plus the duration in every run that does not destroy, replace or shorten it, and is out of the map exactly then in every punctual run that does not reset its timer |
| `Expiry.FiredTimer` | provider.go:39-41 | A due timer fires once, takes its id out of the map and, if it was there, out of every database; a timer that is not due or not pending does nothing |
| `Expiry.StaleTimerEndsNewerSession` | provider.go:199-202 | A concrete run in which the timer of a destroyed session ends its longer-lived successor, by whatever duration that is prolonged |
| `Merging.MergeIsLastWins` | provider.go:97-133 | The merge has a key exactly when an unexpired copy has it, with the value of the last such copy, keys ordered by first appearance |
| `Merging.FirstLoadWinsIff` | database.go:20-21 | The merge is the first unexpired non-empty copy if and only if no copy that has the last word on a key says anything else about it than that first copy |
| `Merging.SecondLoadWins` | provider.go:118-122 | Of two databases with different values for a key, the second one decides |
| `Merging.MergeOfIdentical` | provider.go:97-133 | Merging any positive number of identical unexpired copies is the identity on values and expiry |
| `Merging.ShortcutTakenExactlyAtLast` | provider.go:101-116 | `n == firstValidIdx` holds at an unexpired copy if and only if it is the last and all earlier ones expired, so nothing merged is discarded |
| `Merging.ShortcutEqualsVisit` | provider.go:114-123 | Taking the stored slice as it is equals visiting it into an empty store if and only if its keys are unique and no entry is immutable |
| `Merging.FirstTimeSnoc` | provider.go:104-112 | The loop's running lifetime is the first non-zero one among the unexpired copies so far |
| `Merging.FirstTimeIs` | provider.go:109-118 | The stored time that counts is that of the first copy that has a time and has not expired; none if and only if there is no such copy |
| `Merging.ExpiredIsAbsent` | provider.go:104-107 | Replacing expired copies by missing ones, or the reverse, changes neither values nor lifetime |
| `Databases.CleanupIsInvisible` | sessiondb/leveldb/database.go:75-99 | Cleanup at any time in any of the databases changes nothing that any later load returns |
| `Databases.Database.Load` | sessiondb/leveldb/database.go:109-139 | The iterator walk returns the stored copy for a non-empty id that is stored, otherwise nothing |
| `Databases.Database.Sync` | sessiondb/leveldb/database.go:150-175 | Destroy removes the id, every other action stores the whole encoded session under it; other ids are untouched |
| `Databases.Database.Cleanup` | sessiondb/leveldb/database.go:75-99 | The iterator walk deletes exactly the entries under a non-empty id whose time lies before now; the others are unchanged |
| `Databases.Encode` | database.go:148-169 | A stored copy has unique keys and no immutable flag when the session's keys are unique |
| `Entries.Erase` | memstore.go:38-42 | The encoding keeps order, keys and values and clears every immutable flag |
| `Redis.TtlBound` | sessiondb/redis/database.go:91-98 | A time to live is set if and only if at least a second of life is left; it ends no later than the stored expiry and less than a second before it |
| `Redis.TtlIsInvisibleOutsideWindow` | sessiondb/redis/service/service.go:47-62 | After any writes, among any other databases, the merged load equals that of a database that never forgets, outside a window shorter than a second that ends at the stored expiry; inside it the copy reads as missing |
| `MixedBackends.SeenIsLoaded` | sessiondb/redis/database.go:38-69 | What is left in a database of either kind is what that kind loads |
| `Redis.Database.Sync` | sessiondb/redis/database.go:80-99 | The keys keep standing for the table a database without times to live would hold after the same syncs; a time to live is set if and only if a second of life is left; other keys are untouched |
| `Redis.Database.Load` | sessiondb/redis/database.go:38-69 | Loads what that table holds, up to copies no merge can tell from missing ones, and nothing in the final sub-second window |
| `SyncLog.DeltaLogEqualsSnapshot` | session.go:263-292 | Over any sequence of Set, SetImmutable, Delete and Clear, replaying only actions and entries rebuilds, after each payload, that payload's full store and memory |
| `SyncLog.ReplayOne` | session.go:337-350 | One payload's action and entry reproduce the write, also for a refused Set and for a Delete of an absent key |
| `SyncLog.EmittedAction` | session.go:268-283 | A payload is a create if the store was empty, an insert for a new key, an update for a known one even if the write was refused, and carries the store after the write with the stored time |
| `PayloadPool.PoolLeavesNoKeyOrValue` | database.go:92-128 | Over any interleaving of acquires and releases, pooled payloads are blank and every payload sent carries only its own session's id, action, store and entry; clear and destroy carry no key and no value |
| `PayloadPool.ClearCarriesOldFlag` | database.go:115-121 | For any pool, a clear or destroy payload carries nothing if and only if it is new or the entry it last carried was not immutable |
| `PayloadPool.FlagReachesAnotherSession` | session.go:366-367 | One session's immutable entry leaves its flag on another session's clear |
| `PayloadPool.Pool.Acquire` | database.go:94-113 | Any pooled or new payload comes back blank but for the session's id, action, store and time, and a pooled one has left the pool |
| `PayloadPool.Pool.Release` | database.go:115-121 | The payload is pooled with key and value blanked, which keeps the pool blank |
| `PayloadPool.SyncDatabases` | database.go:123-128 | Every registered database, also one registered twice, ends up synchronised with the payload, which then returns to the pool |
| `Writers.WritersConverge` | session.go:266-291 | Any number of writers on a shared buffer, any interleaving in which payload-and-delivery parts exclude one another: whenever nobody is between steps every copy equals memory |
| `Writers.ConvergesIffLatestCapturedLast` | session.go:338-347 | With no exclusion and payloads serialised from the shared buffer at delivery, an interleaving leaves every copy equal to memory whatever is written if and only if the last payload each database got was captured after the last mutation |
| `Writers.OverlappingPayloadsDiverge` | session.go:361-367 | Two writers and one database suffice to lose an update for good |
| `Writers.OvertakenPayloadIsTorn` | memstore.go:337 | A payload overtaken by a delete stores one entry twice, which memory never held |
| `Writers.MutatedIsApplied` | memstore.go:81-125 | Save, Remove and Reset on a buffer that payloads share act on the session's own slice as on a store of its own, and shrink no buffer |
| `OrderedMaps.WritesRefineOrderedMap` | memstore.go:81-125 | Any sequence of Set, SetImmutable, Remove and Reset acts on the slice as on an ordered map, and keys stay unique |
| `OrderedMaps.SavedIsStored` | memstore.go:81-125 | Save inserts at the end, overwrites in place, or is refused on an immutable entry, as the ordered map does |
| `OrderedMaps.RemovedIsDropped` | memstore.go:328-343 | Remove deletes the key and keeps the order of the others |
| `OrderedMaps.SavedAt` | memstore.go:81-125 | After Save the key's entry is the one saved, or the old one if that is immutable and the new one is not; every other key keeps its entry |
| `OrderedMaps.SavedOrder` | memstore.go:118-124 | A new key comes last, and an existing key keeps its place |
| `OrderedMaps.RemovedAt` | memstore.go:328-343 | After Remove exactly the key is gone and every other key keeps its entry |
| `OrderedMaps.ImmutableEntriesAreSticky` | memstore.go:81-149 | An immutable entry keeps value and flag through any writes other than SetImmutable or Remove of it and Reset |
| `MemStore.Store.Save` | memstore.go:81-125 | On all three paths the visible entries are those of the ordered map after the store; the buffer is replaced exactly when there is no spare slot; what lay in a reused slot is not observable |
| `MemStore.Store.Remove` | memstore.go:328-343 | The in-place shift deletes exactly the key's entry and says whether there was one |
| `MemStore.Store.Reset` | memstore.go:346-348 | Nothing is visible afterwards although the buffer stays |
| `MemStore.Store.Len` | memstore.go:351-354 | The number of keys of the ordered map |
| `MemStore.Store.GetDefault` | memstore.go:153-170 | The default if the key is absent; a plain entry's own value; an immutable entry's value or what its pointer points at; a panic if and only if the entry is an immutable nil or nil pointer |
| `MemStore.Store.Visit` | memstore.go:174-180 | The map's pairs in insertion order, values as in a read, up to the first entry that is an immutable nil or nil pointer |
| `MemStore.Store.GetAll` | session.go:235-243 | Exactly the map's keys with their read values, or a panic if and only if some entry is an immutable nil or nil pointer |
| `MemStore.SaveThenGet` | memstore.go:81-125 | A read after a Save that is not refused returns what was saved, dereferenced if immutable; after a refused one what the immutable entry held |
| `Isolation.ImmutableReadsAreIsolated` | memstore.go:50-73 | Whatever callers do to containers they made or were handed, an immutable slice or map keeps its content and each read returns a container nobody holds, with that content |
| `Isolation.SharedContainerIsNotIsolated` | memstore.go:153-164 | If a plain entry still holds the container, a read of that entry lets a caller change the immutable one |
| `Isolation.PlainReadsAreShared` | memstore.go:72 | A change to what a plain read returned is a change to the entry |
| `Isolation.SlotsAfter` | memstore.go:81-125 | A plain Set is refused exactly on an immutable entry, SetImmutable gives the reference up, Remove takes away its own key only, Reset all |
| `Isolation.ReadContainer` | memstore.go:50-73 | The copying loops: an immutable read returns a new slice of the same elements and capacity, or a new map of the same pairs; a plain read returns the reference itself |
| `Flashes.FlashLifecycle` | session.go:58-110 | A flash is readable through any requests until fetched, still readable after that until the next request for the live session, then never again unless set again |
| `Flashes.RunFollowsPhases` | session.go:247-256 | Every run takes each flash key of each session through the three-phase reference life |
| `Flashes.ShownBeforeFetch` | session.go:94-100 | Peeks and requests never shorten the life of an unfetched message |
| `Flashes.GoneAfterRequest` | provider.go:164-171 | The first request after a fetch removes the message in every continuation without SetFlash |
| `Locks.BalancedUnlessHitOrPanic` | session.go:102-110 | Alone, with its locks free, an operation leaves all locks as they were if and only if it is neither a peek that finds its key nor a Get or GetAll that meets an immutable nil |
| `Locks.AloneLeaves` | session.go:329-357 | Alone, an operation sets or drops exactly its own flash messages and immutable nils |
| `Locks.LeakedExactlyByHitOrPanic` | session.go:49-55 | In every interleaving a session's lock is held for writing with nobody to release it if and only if a peek on it has hit, and for reading if and only if a read of it has panicked; the provider's lock is never leaked |
| `Locks.LeakIsForever` | session.go:58-66 | After a hit no thread that still has to take that lock completes in any continuation; after a panic none that has to take it for writing |
| `Locks.ProviderIsDeadForever` | provider.go:164-186 | Once a Read of a session leaked in either way holds the provider's lock, no provider operation that needs it completes, a timer's Destroy included |
| `Locks.ReadKillsProvider` | provider.go:164-171 | From a session leaked in either way one step of a Read reaches that state |
| `Locks.PeekKillsProvider` | session.go:329-333 | A run from the start: setting a flash, looking at it and the next request kill the provider |
| `Locks.PanicKillsProvider` | session.go:235-243 | The same for setting an immutable nil and reading it, alone or with all values |
| `CookieDomain.EmittedDomain` | sessions.go:83-112 | The replace-based computation on what stands before the first colon, unless that is empty: a Domain exactly for valid hosts, namely a dot and everything after the second-to-last dot, or the whole host if there is no such dot past index 0; none when disabled |
| `CookieDomain.EmittedDomainMatches` | sessions.go:172-201 | Every emitted Domain is domain-matched by the host without its port (section 5.1.3 of RFC 6265), and no dotted-quad IPv4 or IPv6 address gets one |
| `CookieDomain.DomainWithAndWithoutPort` | sessions.go:86-88 | For any colon-free host, with or without any port, the Domain is written for the host alone, is matched by it, and is absent if the host is an address |
| `CookieDomain.PortIsStripped` | sessions.go:86-88 | A host loses its first colon and what follows; a host that starts with a colon or has none is kept |
| `CookieDomain.LastTwoLabelsAre` | sessions.go:96-108 | Of anything followed by two labels exactly those two are kept, unless nothing but a dot is in front |
| `CookieDomain.FewLabelsAreKept` | sessions.go:96-108 | A host with at most one dot is kept whole |
| `CookieDomain.ValidDomainIff` | cookie.go:86-112 | Without a dot no host is valid; with dots it is if and only if it is not one of two fixed addresses and does not have three dots and a number as its last label |
| `CookieDomain.NumbersParse` | cookie.go:105-109 | Up to eighteen digits, signed or not, are a number; anything with another character, nothing, and twenty digits without a leading zero are not |
| `CookieDomain.AddressIsNotValidDomain` | cookie.go:86-112 | No dotted-quad IPv4 address, alone or ending an IPv6 address, and no dotless IPv6 address is a valid domain |
| `CookieDomain.ShortAddressIsValidDomain` | cookie.go:94-111 | An address in a spelling other than the dotted quad does count as a valid domain |
| `CookieDomain.LastTwoLabelsIdempotent` | sessions.go:96-108 | Shortening a shortened host changes nothing |
| `CookieDomain.ShortenedHostHasOneDot` | sessions.go:96-108 | A host that is shortened keeps exactly one dot, however many subdomain levels it had |
| `Machine.StepKeepsWF` | provider.go:136-202 | Every action keeps ids registered to sessions of that id, keys unique in memory, stored copies clean, and "new" sessions empty |
| `Machine.RestartIsANewProvider` | provider.go:22-35 | A restart is a new provider with which the surviving databases are registered again |
| `LifeTimes.LifeTime.Begin` | lifetime.go:20-27 | A positive duration sets the time and starts a timer for it; otherwise nothing changes |
| `LifeTimes.LifeTime.Revive` | lifetime.go:31-41 | A stored time in the future gets a timer for exactly that time; otherwise no timer is started |
| `LifeTimes.LifeTime.Shift` | lifetime.go:44-48 | A positive duration resets the running timer; the stored time never changes |
| `LifeTimes.LifeTime.HasExpired` | lifetime.go:59-65 | True if and only if there is a time and it lies before now |
| `Providers.Provider.constructor` | provider.go:22-27 | A new provider stands for the machine's empty state |
| `Providers.Provider.RegisterDatabase` | provider.go:31-35 | Takes the machine's registration step |
| `Providers.Provider.LoadSessionFromDB` | provider.go:97-133 | The loop with its shortcut returns the merge of the copies and the first stored time, in a buffer shared with nobody |
| `Providers.Provider.NewSession` | provider.go:38-95 | The session object and timers are those of the machine |
| `Providers.Provider.Init` | provider.go:136-142 | Takes the machine's step and registers a new session with a store and buffer of its own, also over an existing one |
| `Providers.Provider.Read` | provider.go:164-175 | Takes the machine's step: collects flashes of a session in memory and returns that session, or creates one that shares nothing |
| `Providers.Provider.Start` | sessions.go:144-161 | Takes the machine's step on the decoded cookie value, marking a generated session new exactly when it holds nothing; a created session shares nothing |
| `Providers.Provider.UpdateExpiration` | provider.go:147-161 | Takes the machine's step and reports whether the session was found with a positive duration |
| `Providers.Provider.DeleteSession` | provider.go:199-202 | Unregisters the session and sends one blank destroy payload to every database; timers are untouched |
| `Providers.Provider.Destroy` | provider.go:180-186 | Takes the machine's step; without the session in memory nothing is sent |
| `Providers.Provider.DestroyAll` | provider.go:191-197 | Emptying the map while walking it takes the machine's single step for all sessions and sends exactly one blank destroy payload for each |
| `Providers.Provider.Fire` | provider.go:39-41 | A due timer takes the machine's firing step, with one blank destroy payload if its id is registered and none otherwise |
| `Providers.Session.SetValue` | session.go:263-292 | Takes the machine's write step, sends exactly the payload the delta log prescribes, and leaves the session in its old buffer or a new one and all others in theirs |
| `Providers.Session.Delete` | session.go:337-350 | The same for Delete in the same buffer, and reports whether the key was there |
| `Providers.Session.Clear` | session.go:360-368 | The same for Clear in the same buffer |
| `Providers.Session.RunFlashGC` | session.go:58-66 | The walk removes exactly the marked messages |
| `Providers.Session.HasFlash` | session.go:69-71 | True if and only if some key has a message, fetched or not |
| `Providers.Session.SetFlash` | session.go:329-333 | The key gets an unmarked message, whatever was there |
| `Providers.Session.GetFlash` | session.go:82-89 | Returns the message if there is one and marks it |
| `Providers.Session.PeekFlash` | session.go:94-100 | Returns the message if there is one and changes nothing |
| `Providers.Session.GetFlashes` | session.go:247-256 | Returns all messages and marks all of them |
| `Providers.Session.DeleteFlash` | session.go:353-357 | Exactly the key's message is gone |
| `Providers.Session.ClearFlashes` | session.go:371-377 | No message is left |
| `Providers.Session.Handle` | session.go:68-110 | Any flash call on a session of the provider takes the machine's flash step and shows what the phase prescribes |
| `Clients.Client.Perform` | provider.go:135-202 | Any one action on the objects takes the machine's step, whatever was done before |
| `Clients.Client.Serve` | session.go:263-377 | Any sequence of actions on the objects ends in the state of the machine's run, touching only the engine's own objects |
| `Clients.Client.Restart` | sessiondb/leveldb/database.go:62-71 | Reopening the databases, some with Cleanup, under a new provider takes the machine's restart step |

## Left out

- Requests, responses, headers, cookie encoding and decoding, id generation and configuration: the decoded cookie value, the generated id and the host are inputs.
- The bytes of gob: encoding then decoding is modelled as keeping order, keys, values and time and erasing flags and timers; encoding errors do not occur.
- Databases set to `Async(true)`: their goroutine reads a slice that shares its buffer with live memory; all databases here are synchronous.
- The badger, boltdb and file backends, and opening, closing, logging and connection handling of all backends.
- Cleanup of a leveldb database while sessions are live is not a step of the machine, only of a restart: it is invisible to loads (`Databases.CleanupIsInvisible`), but after it the absence of expired copies no longer shows that none has expired.
- Agreement.EveryRunAgrees: values have no identity in the machine, so a handler that changes a slice or map in place after a plain Get is not represented; `Isolation.PlainReadsAreShared` shows that such a change reaches memory, and it reaches no database before the next write.
- MixedBackends.EveryMixedRunAgrees: the session with the empty id, which redis would load and leveldb would not, is left aside.
- Locking in the machine: its actions are atomic, as are the methods of `Providers`; locks are the subject of `Locks`, and interleavings of the unlocked second half of a write that of `Writers`.
- Locks.LeakIsForever: the rule by which a waiting writer keeps new readers of an RWMutex out is not modelled; it only adds waiting, to readers after a panic too.
- Writers.ConvergesIffLatestCapturedLast: reading the slice header into a payload, and serialising it for one database, are one step each, although the code does both without the lock.
- MemStore.Store.GetDefault: a pointer is a value with what it points at when it is read; what gob makes of stored pointers is not modelled.
- Panics inside a database's Sync or Load, which would unwind with the provider's lock held, belong to code that is not part of this model.
- CookieDomain.EmittedDomainMatches: an IP address is a dotted quad or an IPv6 literal; other spellings that resolvers accept, such as 127.1, are taken for domains by the code.
- CookieDomain.NumbersParse: which nineteen-digit numbers fit into 64 bits is left to the definition of `AtoiOk`.
- Isolation.ImmutableReadsAreIsolated: copies are shallow, elements are plain values, and setters give the reference up.
- LifeTimes.LifeTime.Shift: a session's timer is an index into the runtime's list of timers, and an index beyond the list is treated as no timer.
- `LifeTime.ExpireNow`, which nothing calls, the typed getters, and the cookie's Expires and Max-Age.
- Monotonic clock readings and the floating point inside `Seconds()`: time is integer nanoseconds, one reading per step, except in `Recovery.NoTimerIffDueBetweenReadings`.
