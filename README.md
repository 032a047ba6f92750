# Session cleaner: a verified model of the session table

This project models `SessionManager` from `5-session-cleaner/main.go`: an
in-memory table of sessions kept in two maps, `sessions` (session ID to the
session's `Data`) and `sessionTimes` (session ID to the time of its last create
or update). It offers `CreateSession`, `GetSessionData` and
`UpdateSessionData`, and a background cleaner that, once per one-second tick,
deletes every session whose last update is at least 5 seconds old.

Each operation, and each tick of the cleaner, is modelled as one atomic step,
which is what the manager's mutex is meant to give. `UpdateSessionData` as
written is not one step (see below), so for it this is the intended semantics. Time is an explicit
integer number of nanoseconds, so the cleaner's test
`time.Since(lastUpdate).Seconds() >= 5` is `now - last >= 5_000_000_000`.
Session payloads (`interface{}` values) are an opaque type parameter `V`.

Modules:

- `Wrappers` (wrappers.dfy): `Option` for a Go `error` return, `Result` for a `(value, error)` pair.
- `Sessions` (sessions.dfy): the two maps as a value `Table`, the invariant
  `Inv` (both maps have the same key set), and the specification functions
  `Empty`, `Created`, `Updated`, `Swept` and `Lookup`, with lemmas relating them.
- `Manager` (manager.dfy): the class `SessionManager` with the two map fields,
  whose methods update them in place and are proved against the specification
  functions. `Sweep` is the cleaner's loop over a snapshot of the keys.
- `Cleaner` (cleaner.dfy): runs of operations interleaved with cleaner ticks,
  and the eviction window: a session that is no longer updated is never
  removed before it is 5 seconds old, and is removed by the first tick at or
  after that age. A ticker of period 1 second provides that tick within 1 second.
- `UnlockedUpdate` (unlocked_update.dfy): `UpdateSessionData` as written, in
  two steps, and the interleaving that brings an evicted session back.

`UpdateSessionData` checks that the ID exists before it takes the lock
(main.go:107), then writes under the lock (main.go:113-117). The model's
`UpdateSessionData` treats the check and the write as one step. That is the
intended semantics, not the literal interleaving. The literal interleaving is
modelled apart, under Findings.

## Model

| member | source | states |
|---|---|---|
| `Sessions.Empty` | 5-session-cleaner/main.go:41-45 | A new manager has no session in either map, and the invariant holds. |
| `Sessions.Created` | 5-session-cleaner/main.go:79-86 | Creating `id` stores empty data and time `now` for it. It adds exactly `id` to both key sets and leaves every other entry unchanged. It preserves the invariant. |
| `Sessions.Updated` | 5-session-cleaner/main.go:106-121 | On a present ID, the data is replaced wholesale and the time set to `now`. On an absent ID, nothing changes. The key set is unchanged, so an update never creates an ID. Other entries are untouched. It preserves the invariant. |
| `Sessions.Swept` | 5-session-cleaner/main.go:61-67 | A tick keeps exactly the IDs whose age at `now` is under 5 s, with their data and times unchanged. It removes an expired ID from both maps. No remaining entry is expired. It preserves the invariant. |
| `Sessions.LookupAfterCreate` | 5-session-cleaner/main.go:80-83 | Reading a session right after creating it returns empty data. |
| `Sessions.LookupAfterUpdate` | 5-session-cleaner/main.go:114-117 | After an update of a present session, a read returns exactly the new data. |
| `Sessions.UpdateAbsentKeepsAbsent` | 5-session-cleaner/main.go:107-110 | Updating an absent ID leaves it absent: reads still report `SessionNotFound` and no timestamp is created. |
| `Sessions.SweepIdempotent` | 5-session-cleaner/main.go:61-67 | A second tick at the same time removes nothing more. |
| `Sessions.SweepsCompose` | 5-session-cleaner/main.go:58-67 | A tick at an earlier time followed by one at a later time leaves the same table as the later tick alone. |
| `Manager.SessionManager.constructor` | 5-session-cleaner/main.go:41-51 | `NewSessionManager` starts with both maps empty and the invariant established. |
| `Manager.SessionManager.CreateSession` | 5-session-cleaner/main.go:73-87 | If ID generation fails, it returns that error and neither map changes. Otherwise it returns the ID and the maps become `Created(old, id, now)`. The invariant is kept. |
| `Manager.SessionManager.GetSessionData` | 5-session-cleaner/main.go:95-103 | On a present ID it returns exactly the stored data; on an absent ID it returns `SessionNotFound`. Its result is `Lookup(State(), id)`, so the read lemmas apply to it. It modifies nothing, so it does not refresh the timestamp. |
| `Manager.SessionManager.UpdateSessionData` | 5-session-cleaner/main.go:106-121 | It returns nil exactly when the ID was present, and `SessionNotFound` otherwise. The maps become `Updated(old, id, data, now)`. The invariant is kept. |
| `Manager.SessionManager.Sweep` | 5-session-cleaner/main.go:58-69 | One tick's loop visits every ID of `sessionTimes`, deleting while it iterates, and leaves exactly `Swept(old, now)`. No entry is skipped. The invariant is kept. |
| `Manager.WebsiteScenario` | 5-session-cleaner/main.go:123-150 | The demo driver's create, update with `website: longhoang.de` and read, with a generator that succeeds: the read returns exactly that data. The driver stops there. The model adds a cleaner tick 8 s later, with no update in between. It exercises the promise of main.go:13-14 with the sweep of main.go:58-69, and it makes a second read return `SessionNotFound`. |
| `Cleaner.RunPreservesInv` | 5-session-cleaner/main.go:29-33 | Any sequence of creates, reads, updates and ticks keeps the two maps' key sets equal. |
| `Cleaner.StaysAbsent` | 5-session-cleaner/main.go:63-64 | A removed session stays absent from both maps until it is created again. Updates of it in between do not bring it back. |
| `Cleaner.ExpiredIsGone` | 5-session-cleaner/main.go:62-64 | If no operation creates or updates a session, a tick at which its age is at least 5 s removes it. It stays removed to the end of the run. |
| `Cleaner.SurvivesUntilExpiry` | 5-session-cleaner/main.go:62 | If no operation creates or updates a session, and every tick runs before it is 5 s old, it is still present at the end of the run. Its data and time are unchanged. |
| `Cleaner.EvictedWithinWindow` | 5-session-cleaner/main.go:13-14 | If some tick runs between 5 s and 5 s + 1 tick after a session's last update, and nothing touches the session, it is gone at the end. |
| `Cleaner.TickerHitsWindow` | 5-session-cleaner/main.go:55 | A ticker of period 1 s started at `start` ticks inside every window `[x, x + 1 s]` with `start <= x`. |
| `Cleaner.EvictedByTicker` | 5-session-cleaner/main.go:9-14 | Suppose a ticker started no later than a session's expiry runs until 1 s past that expiry, and nothing touches the session. Then the session is gone. So removal happens between 5 s and 6 s after the last update, inside the promised 5 to 7 s. |
| `UnlockedUpdate.LockedWrite` | 5-session-cleaner/main.go:113-118 | The locked half of `UpdateSessionData` as written always stores the data and time for the ID, present or not. |
| `UnlockedUpdate.TickBetweenCheckAndWriteResurrects` | 5-session-cleaner/main.go:107-117 | A tick can evict a session between the unlocked existence check and the locked write. The check passes and the write puts the session back. The one-step update leaves it evicted. |
| `UnlockedUpdate.ResurrectionExample` | 5-session-cleaner/main.go:106-121 | Concrete instance: session `s` is last updated at 0, checked, evicted by the tick at 5 s, then written at 5 s. It reads back the new data, where the one-step update reports `SessionNotFound`. |

## Findings

| source | as written | input that shows it | evidently intended | confidence | as-written member | corrected member |
|---|---|---|---|---|---|---|
| 5-session-cleaner/main.go:107-117 | `UpdateSessionData` checks that the ID exists without holding the lock, then takes the lock and writes both maps without checking again. | Session `s` last updated at 0. `UpdateSessionData("s", d)` passes its check. The cleaner tick at 5 s takes the lock and evicts `s`. The update then writes `s` back with data `d`. An evicted session is resurrected and the call reports success. The unlocked map read also races with the cleaner's deletes. | The check and the write form one critical section. An update of an evicted session returns `ErrSessionNotFound` and creates nothing. | high, not executed | `UnlockedUpdate.TickBetweenCheckAndWriteResurrects` | `Manager.SessionManager.UpdateSessionData` |

## Left out

- The cleaner goroutine, `time.NewTicker`, `sync.Mutex` and the endless loop in `sessionCleaner` (main.go:48, 55-60, 68) are left out. Their job is scheduling and mutual exclusion. The model takes each operation as one atomic step and one loop iteration as `Sweep(now)`. The ticker's cadence appears only as an assumption of `Cleaner.EvictedByTicker`.
- Clock readings (`time.Now`, `time.Since`) are an explicit `now` parameter in nanoseconds.
- `Manager.SessionManager.Sweep` reads the clock once per pass. The cleaner as written calls `time.Since` once per entry (main.go:62), so later entries of one pass are judged against a slightly later clock. The model collapses those readings into a single `now`. That is what makes "no remaining entry is expired at `now`" exact. The floating-point `Seconds()` is not modelled; it is exact for ages near 5 s. The saturation of Go's `Duration` at about 292 years is not modelled either.
- `MakeSessionID` is not part of this model. It is an input `generated`: either the new ID or the generator's error message. An ID that already exists is overwritten with empty data, as the code does.
- `log.Printf` and `log.Println` (main.go:65, 131, 142, 150) produce output only and are left out.
- `main`'s `log.Fatal` calls (main.go:128, 139, 147) end the process when a call fails. They are left out. `Manager.WebsiteScenario` passes a generator result `Success(id)`, so none of its calls fails.
- Go map aliasing is not modelled: `GetSessionData` returns the stored map itself (main.go:102), and a caller could mutate it. Data are values here.
- The code removes a session when its age is `>= 5` seconds (main.go:62), while the comment at main.go:10 says "more than 5 seconds". The model follows the code.
- 3-limit-service-time (`main.go`, `mainz.go`, `mockserver.go`) is not part of this model. It is a concurrency exercise: workers race a ticker over channels, with a load driver built on sleeps and goroutines.
