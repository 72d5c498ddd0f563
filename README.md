# Link watcher reconciliation of `wml start`

`wml start` keeps destination directories in step with source directories.
Each configured *link* (an entry of `links.json`: `src`, `dest`, `enabled`)
gets its own watchman client, which copies changed files from `src` to
`dest`. A further subscription watches the directory that holds
`links.json`. When that file changes, `updateWatchers` reloads the links and
reconciles the table of running watchers against the new snapshot.

This project models that reconciliation and the trigger that drives it:

- `snapshots.dfy` (module `Snapshots`): links, snapshots (`map<Id, Link>`) and
  the diff that reconciliation applies. `StartIds` holds the ids that get a new
  watcher. `StopIds` holds the ids on which `stopWatcher` is called; a missing
  table entry for one of them faults. `NextKeys` gives the table keys after a
  reconciliation that did not fault. The lemmas cover idempotence, the table invariant, and
  two concrete reload scenarios.
- `start.dfy` (module `Start`): the `onLinksChange` predicate as a pure
  function. The module-level state of `src/cli/start.js` is the class
  `Supervisor`: the `watchers` table, a count of created clients, and a log of
  start/stop calls. Its methods are `startWatcher`, `stopWatcher` and
  `updateWatchers`, and its two loops are proved against the diff above.

The model follows the code as written, including these behaviours of it:

- An id whose `enabled` flag did not change is left alone, even if its `src` or
  `dest` changed (src/cli/start.js:138-143). Its old watcher keeps running
  against the old paths.
- The client is put into the table synchronously, inside `startWatcher`,
  before any handshake step has run (src/cli/start.js:59).
- The second loop stops every id that was removed from the snapshot, whether
  or not it was enabled (src/cli/start.js:150-152;
  `RemovingDisabledLinkStopsIt`). `stopWatcher` then calls
  `end()` on `watchers[i]`. When there is no entry that value is `undefined`
  and the call throws. The exception leaves `updateWatchers` part-way through.
  The model returns `ok == false` at that point and states which ids may
  already have been processed. The same fault happens on an
  enabled→disabled id that has no entry (src/cli/start.js:141; `StopEntry`).
- The second loop labels each stop with `link.src` and `link.dest`
  (src/cli/start.js:151). `link` is the function-scoped `var` of the first
  loop (src/cli/start.js:135). When the new snapshot is empty, the first loop
  never assigns it, and reading `link.src` throws a `TypeError` before the
  first removed watcher is ended. That is the bug listed under "Findings".
- `updateWatchers` never waits: every table write in it is synchronous
  (src/cli/start.js:59, 139, 142, 152), so each run completes before the next
  starts and two runs never interleave. What nothing coordinates is the
  asynchronous handshake of a started watcher (src/cli/start.js:61-116): it
  goes on with a client that a later run may already have ended. Since the
  handshake is not modelled (see below), that is outside this model.

Ids are strings, and a client is a natural number given out in creation order.
A started id's entry is at least the count of clients created before the call
began, so a start never reuses an existing client. A ghost map from each
client to the link it was created for witnesses that no client serves two
links (`DistinctClients`). The `for...in` loops pick their next key with `:|`,
so every property holds for every key order.

## Model

| member | source | states |
|---|---|---|
| `Snapshots.StartIds` | src/cli/start.js:134-139 | an id is started iff it is enabled in the new snapshot and was absent or not enabled in the old one |
| `Snapshots.StopIds` | src/cli/start.js:140-153 | an id is stopped iff it was enabled before and is not enabled now, or it is in the old snapshot and missing from the new one |
| `Snapshots.StartsAndStopsApart` | src/cli/start.js:134-153 | no id is both started and stopped, and only ids of the two snapshots are touched |
| `Snapshots.StopsBeyondDisabling` | src/cli/start.js:150-153 | the stops beyond the ids that lose their enabled state are exactly the removed ids that were already disabled |
| `Snapshots.SameFlagsNoEffect` | src/cli/start.js:138-146 | with the same ids and the same enabled flags on both sides, nothing is started or stopped, whatever `src`/`dest` changes |
| `Snapshots.ReconcileAgainIsNoop` | src/cli/start.js:126-154 | a second reconciliation of the new snapshot against itself starts and stops nothing, and leaves the table keys as the first one left them |
| `Snapshots.TableTracksEnabled` | src/cli/start.js:134-153 | if the table keys are the enabled ids of the old snapshot and every removed id was enabled, then every id to stop has a table entry and `NextKeys` gives the enabled ids of the new snapshot; the source reaches those keys unless the reload replaces a non-empty snapshot with an empty one (`ReadsUnassignedLink`), where it faults |
| `Snapshots.TwoReloadsTrackEnabled` | src/cli/start.js:126-154 | two diffs in a row keep `NextKeys` equal to the enabled ids, and every id either of them stops has a table entry; the source reaches those keys unless a reload replaces a non-empty snapshot with an empty one (`ReadsUnassignedLink`), where it faults |
| `Snapshots.DisableOneEnableAnother` | src/cli/start.js:138-143 | `{A: on}` reloaded as `{A: off, B: on}` stops exactly A and starts exactly B |
| `Snapshots.RemovingDisabledLinkStopsIt` | src/cli/start.js:150-151 | removing a disabled link still stops it, so a table without an entry for it cannot cover the stops; with another link kept, the stale `link` is assigned |
| `Start.HasLinksChanged` | src/cli/start.js:29-31 | true iff some changed file is named exactly `links.json` |
| `Start.OnLinksChange` | src/cli/start.js:28-36 | the callback runs exactly once when some file is named `links.json`, and never when none is |
| `Start.LeftoverIsRemoved` | src/cli/start.js:145 | once the first loop has deleted every visited id, what is left of `prevLinks` is exactly the removed ids |
| `Start.Supervisor.DistinctClients` | src/cli/start.js:55-59 | in a valid table no two links share a client, since each start creates its own |
| `Start.Supervisor.constructor` | src/cli/start.js:48 | the table starts empty, with no clients created and no calls made |
| `Start.Supervisor.StartWatcher` | src/cli/start.js:50-59 | a disabled link changes nothing and yields no client; an enabled one yields a new client, which is already in `watchers[linkId]` when the call returns |
| `Start.Supervisor.StopWatcher` | src/cli/start.js:121-124 | ends the given client and leaves the table alone; with no client (`undefined`) it faults |
| `Start.Supervisor.StartEntry` | src/cli/start.js:139 | the table maps the id to the new client, and one start is logged for it |
| `Start.Supervisor.StopEntry` | src/cli/start.js:141-142 | it faults iff the table has no entry, changing nothing; otherwise the entry's client is ended and the entry deleted |
| `Start.Supervisor.ApplyOne` | src/cli/start.js:135-145 | one visit of an id of the new snapshot reconciles it (one start, one stop, or nothing) and leaves every other id as it was; a fault changes nothing and means some id to stop had no entry |
| `Start.Supervisor.ApplyLoaded` | src/cli/start.js:134-146 | the visited ids are reconciled and the rest untouched; without a fault every id of the new snapshot is visited, what is left of `prevLinks` is the removed ids, and `link` is unassigned iff the new snapshot is empty; a fault means the new snapshot is non-empty and some id to stop had no entry |
| `Start.Supervisor.StopRemoved` | src/cli/start.js:148-153 | the removed ids are reconciled one by one, each losing its entry after one end of its client, and every other id stays as it was; without a fault all of them are done, and a fault means some id to stop had no entry |
| `Start.Supervisor.UpdateWatchers` | src/cli/start.js:126-154 | it faults iff some id to stop has no table entry, or an empty snapshot replaces a non-empty one; in that second case nothing changes. Each started id gets exactly one start and a new client in the table. Each stopped id gets exactly one end of its old client and loses its entry. Every other id keeps its entry and gets no call. After a fault, each id is either fully reconciled or untouched. With the table invariant and a non-empty new snapshot (or an empty old one), the new keys are the enabled ids of the new snapshot |
| `Start.Supervisor.UpdateWatchersIntended` | src/cli/start.js:126-154 | with each removed link's own `src`/`dest` as the stop labels, it faults iff some id to stop has no table entry, reconciles every id as above, and with the table invariant leaves exactly the enabled ids of the new snapshot |
| `Start.EmptyReloadKeepsWatcher` | src/cli/start.js:135-151 | reloading `{A: on}` as `{}` faults and A keeps its table entry |
| `Start.EmptyReloadStopsWatcher` | src/cli/start.js:148-152 | with the labels taken from the removed link, the same reload succeeds and A's entry is gone |
| `Start.TwoStartsGetTwoClients` | src/cli/start.js:55-59 | two links enabled in one reload get two different clients |

## Findings

| source | as written | input that shows it | evidently intended | confidence | as-written member | corrected member |
|---|---|---|---|---|---|---|
| src/cli/start.js:135-151 | the removal loop labels each stop with `link.src`/`link.dest`, where `link` is only ever assigned by the first loop | old snapshot `{A: enabled}`, new snapshot `{}`, table `{A: c}`: `link` is `undefined`, `link.src` throws, A's watcher is never ended and its entry stays | stop every removed link, labelling it with its own `src`/`dest` (`prevLinks[i]`) | high, not executed | `Start.Supervisor.UpdateWatchers`, `Start.EmptyReloadKeepsWatcher` | `Start.Supervisor.UpdateWatchersIntended`, `Start.EmptyReloadStopsWatcher` |

## Left out

- The asynchronous handshake in `startWatcher` (src/cli/start.js:61-116) is not modelled. Its steps are `capabilityCheck`, `watchProject`, `getConfig` and `subscribe` on a watchman client, whose modules are not part of this model. A start is an opaque event that yields a new client.
- The failure branch of that chain (src/cli/start.js:104-116) is not modelled. It calls `client.end()` and rethrows after reconciliation has returned, and it leaves the ended client in the table. It depends on responses from the watchman service.
- `links.load()` and the format of `links.json` are not modelled. The loader is not part of this model. The new snapshot is an input, and the old one is assumed to be a separate object that `load` does not mutate.
- `copyHandler`, the byte-level copy of changed files, is not modelled.
- `watchForLinkChanges` (src/cli/start.js:38-46) is subscription setup on a watchman client. Only its handler `onLinksChange` is modelled, with the callback reduced to a count of calls.
- Console output and the `silent` flag are not modelled. The `src` and `dest` arguments of `stopWatcher` only label a log line. Reading the stale `link` for them is modelled where it throws (see "Findings"), and not otherwise.
- Start.Supervisor.StartWatcher: link ids are taken to be ordinary keys of the `watchers` table. In the source that table is a JavaScript array (src/cli/start.js:48), and two ids behave differently there. Assigning `watchers["length"]` (src/cli/start.js:59) throws a `RangeError` after the client has been created. Assigning `watchers["__proto__"]` replaces the array's prototype, and `delete` (src/cli/start.js:142, 152) then removes nothing. Neither id is modelled: here both are entries like any other.
- Start.Supervisor.UpdateWatchers: for the same reason, a reload that starts a link with id `length` is modelled as succeeding. A stop of `__proto__` is modelled as deleting its entry, so that a later stop faults. In the source the first throws part-way, and the second leaves the entry in place, so a later stop ends the same client again.
- Start.Supervisor.StopWatcher: takes the link id instead of `src` and `dest`. In the source those arguments are used only for logging; here the id labels the logged stop.
- The yargs command wiring (`command`, `describe`, `builder`, `handler`) is not modelled.
- `enabled` is a boolean here. The source tests it for JavaScript truthiness.
- The key order of `for...in` is not modelled. The loops take keys in an arbitrary order, and everything above is proved for every order.
