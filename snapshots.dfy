/** Link snapshots and the diff that reconciliation applies between two of them.

    A snapshot is the parsed content of links.json: link id -> link record.
    Reconciliation compares the snapshot held before a reload with the one
    loaded by it; the sets below say which ids get a watcher started and
    which get their watcher stopped, as the two loops of `updateWatchers`
    decide it. */
module Snapshots {

  type Id = string

  /** One configured link: copy changes under `src` to `dest` while `enabled`. */
  datatype Link = Link(src: string, dest: string, enabled: bool)

  type Snapshot = map<Id, Link>

  /** `(prevLinks[i] || {}).enabled`: an id that is absent counts as not enabled. */
  predicate EnabledIn(s: Snapshot, id: Id) {
    id in s && s[id].enabled
  }

  function EnabledIds(s: Snapshot): set<Id> {
    set id | id in s && s[id].enabled
  }

  /** Ids of the old snapshot that the new one no longer has: what is left of
      `prevLinks` once the first loop has deleted every id it visited. */
  function RemovedIds(prev: Snapshot, curr: Snapshot): set<Id> {
    prev.Keys - curr.Keys
  }

  /** Ids for which the first loop calls `startWatcher`: present in the new
      snapshot, enabled there, and not enabled (or absent) before. */
  function StartIds(prev: Snapshot, curr: Snapshot): (r: set<Id>)
    ensures r <= curr.Keys
    ensures forall id :: id in r <==> !EnabledIn(prev, id) && EnabledIn(curr, id)
  {
    set id | id in curr && !EnabledIn(prev, id) && curr[id].enabled
  }

  /** Ids on which `stopWatcher` is called (a missing table entry faults): by
      the first loop when an id present in both snapshots goes from enabled to
      not enabled, and by the second loop for every removed id, whatever its
      old flag was. */
  function StopIds(prev: Snapshot, curr: Snapshot): (r: set<Id>)
    ensures r <= prev.Keys
    ensures forall id :: id in r <==>
      (EnabledIn(prev, id) && !EnabledIn(curr, id)) || (id in prev && id !in curr)
  {
    (set id | id in curr && EnabledIn(prev, id) && !curr[id].enabled) + RemovedIds(prev, curr)
  }

  /** The keys of the watcher table after a reconciliation that did not fault. */
  function NextKeys(keys: set<Id>, prev: Snapshot, curr: Snapshot): set<Id> {
    (keys - StopIds(prev, curr)) + StartIds(prev, curr)
  }

  /** The removal loop of `updateWatchers` labels each stop with `link.src`
      and `link.dest`, where `link` is the function-scoped variable that only
      the first loop assigns. It is still undefined when the removal loop
      runs exactly if the new snapshot is empty and the old one is not. */
  predicate ReadsUnassignedLink(prev: Snapshot, curr: Snapshot) {
    curr == map[] && prev != map[]
  }

  /** No id is both started and stopped, and only ids of the two snapshots are touched. */
  lemma StartsAndStopsApart(prev: Snapshot, curr: Snapshot)
    ensures StartIds(prev, curr) * StopIds(prev, curr) == {}
    ensures StartIds(prev, curr) + StopIds(prev, curr) <= prev.Keys + curr.Keys
  {
  }

  /** The only ids on which the code departs from "stop exactly the ids that
      stop being enabled" are the removed ids that were already disabled. */
  lemma StopsBeyondDisabling(prev: Snapshot, curr: Snapshot)
    ensures StopIds(prev, curr) - (EnabledIds(prev) - EnabledIds(curr))
         == RemovedIds(prev, curr) - EnabledIds(prev)
  {
  }

  /** Reloading a snapshot with the same ids and the same enabled flags
      (other attributes may differ) starts and stops nothing. */
  lemma SameFlagsNoEffect(prev: Snapshot, curr: Snapshot)
    requires prev.Keys == curr.Keys
    requires forall id :: id in curr ==> prev[id].enabled == curr[id].enabled
    ensures StartIds(prev, curr) == {} && StopIds(prev, curr) == {}
  {
  }

  /** The second of two back-to-back reconciliations, (prev, curr) and then
      (curr, curr), makes no start and no stop. */
  lemma ReconcileAgainIsNoop(prev: Snapshot, curr: Snapshot, keys: set<Id>)
    ensures NextKeys(NextKeys(keys, prev, curr), curr, curr) == NextKeys(keys, prev, curr)
    ensures StartIds(curr, curr) == {} && StopIds(curr, curr) == {}
  {
  }

  /** The table invariant: if the table holds exactly the enabled ids of the
      old snapshot and every removed id was enabled, then every id to stop has
      a table entry, and `NextKeys` gives exactly the enabled ids of the new
      snapshot. The source reaches those keys unless the reload replaces a
      non-empty snapshot with an empty one (`ReadsUnassignedLink`), where it
      faults. */
  lemma TableTracksEnabled(keys: set<Id>, prev: Snapshot, curr: Snapshot)
    requires keys == EnabledIds(prev)
    requires RemovedIds(prev, curr) <= EnabledIds(prev)
    ensures StopIds(prev, curr) <= keys
    ensures NextKeys(keys, prev, curr) == EnabledIds(curr)
  {
  }

  /** Two diffs in a row keep `NextKeys` equal to the enabled ids, and every
      id either of them stops has a table entry, provided each reload only
      removes ids that were enabled. As above, the source faults instead on a
      reload that replaces a non-empty snapshot with an empty one. */
  lemma TwoReloadsTrackEnabled(keys: set<Id>, first: Snapshot, second: Snapshot, third: Snapshot)
    requires keys == EnabledIds(first)
    requires RemovedIds(first, second) <= EnabledIds(first)
    requires RemovedIds(second, third) <= EnabledIds(second)
    ensures StopIds(first, second) <= keys
    ensures StopIds(second, third) <= NextKeys(keys, first, second)
    ensures NextKeys(NextKeys(keys, first, second), second, third) == EnabledIds(third)
  {
    TableTracksEnabled(keys, first, second);
    TableTracksEnabled(NextKeys(keys, first, second), second, third);
  }

  /** {A: enabled} reloaded as {A: disabled, B: enabled}: stop A, start B. */
  lemma DisableOneEnableAnother(a: Link, b: Link)
    requires a.enabled && b.enabled
    ensures StartIds(map["A" := a], map["A" := a.(enabled := false), "B" := b]) == {"B"}
    ensures StopIds(map["A" := a], map["A" := a.(enabled := false), "B" := b]) == {"A"}
  {
  }

  /** A removed link is stopped even when it was disabled; with no table
      entry for it, that stop is the fault of `stopWatcher` on `undefined`.
      The new snapshot keeps another link, so the removal loop has a `link`. */
  lemma RemovingDisabledLinkStopsIt(a: Link, b: Link)
    requires !a.enabled
    ensures StopIds(map["A" := a, "B" := b], map["B" := b]) == {"A"}
    ensures !(StopIds(map["A" := a, "B" := b], map["B" := b]) <= EnabledIds(map["A" := a, "B" := b]))
    ensures !ReadsUnassignedLink(map["A" := a, "B" := b], map["B" := b])
  {
  }
}
