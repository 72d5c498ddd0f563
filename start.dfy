/** The `start` command: the handler that reacts to edits of links.json and
    the supervisor that keeps one watchman client per enabled link.

    The asynchronous handshake of a watcher (capability check, watch-project,
    get-config, subscribe) is not part of this model: starting a watcher is
    the synchronous part of `startWatcher` (create a client, record it in the
    table) and stopping one is the call to the client's `end`. */
module Start {
  import opened Snapshots

  datatype Option<T> = None | Some(value: T)

  /** One entry of a change batch delivered by watchman; only its name is read. */
  datatype FileChange = FileChange(name: string)

  const LinksFile: string := "links.json"

  /** `resp.files.some(file => file.name === 'links.json')`. */
  function HasLinksChanged(files: seq<FileChange>): (r: bool)
    ensures r <==> exists k :: 0 <= k < |files| && files[k].name == LinksFile
  {
    if files == [] then false
    else files[0].name == LinksFile || HasLinksChanged(files[1..])
  }

  /** How many times `onLinksChange` calls its `onChange` callback for one
      change batch: once if the batch names links.json, never otherwise. */
  function OnLinksChange(files: seq<FileChange>): (calls: nat)
    ensures calls <= 1
    ensures calls == 1 <==> exists k :: 0 <= k < |files| && files[k].name == LinksFile
  {
    if HasLinksChanged(files) then 1 else 0
  }

  /** A watchman client, numbered in creation order. A number identifies the
      object that `new watchman.Client()` returned; a new one is never equal
      to any earlier one. */
  type Client = nat

  /** A start or stop call made by reconciliation, for the link `id`. */
  datatype Event = Started(id: Id, client: Client) | Ended(id: Id, client: Client)

  /** The events of `log` that concern `id`, in order. */
  function EventsFor(log: seq<Event>, id: Id): (r: seq<Event>)
    ensures |r| <= |log|
    ensures forall k :: 0 <= k < |r| ==> r[k].id == id
  {
    if log == [] then []
    else
      var last := log[|log| - 1];
      EventsFor(log[..|log| - 1], id) + (if last.id == id then [last] else [])
  }

  /** Appending an event adds it to the events of its own id only. */
  lemma EventsForSnoc(log: seq<Event>, e: Event, id: Id)
    ensures EventsFor(log + [e], id) == EventsFor(log, id) + (if e.id == id then [e] else [])
  {
    assert (log + [e])[..|log|] == log;
  }

  /** The table entry and the events of `id` are as they were before. */
  ghost predicate Untouched(before: map<Id, Client>, after: map<Id, Client>, events: seq<Event>, id: Id) {
    && (id in after <==> id in before)
    && (id in after ==> after[id] == before[id])
    && EventsFor(events, id) == []
  }

  /** What reconciling `prev` into `curr` does for `id`: one start that puts a
      new client (numbered `firstNew` or later) in the table, or one stop of the
      client in the table followed by removal of the entry, or nothing. */
  ghost predicate Reconciled(prev: Snapshot, curr: Snapshot, before: map<Id, Client>, after: map<Id, Client>,
                             events: seq<Event>, firstNew: nat, id: Id)
  {
    if id in StartIds(prev, curr) then
      id in after && after[id] >= firstNew && EventsFor(events, id) == [Started(id, after[id])]
    else if id in StopIds(prev, curr) then
      id in before && id !in after && EventsFor(events, id) == [Ended(id, before[id])]
    else
      Untouched(before, after, events, id)
  }

  /** Reconciliation part-way: the ids in `done` are reconciled, all others untouched. */
  ghost predicate Progress(prev: Snapshot, curr: Snapshot, before: map<Id, Client>, after: map<Id, Client>,
                           events: seq<Event>, firstNew: nat, done: set<Id>)
  {
    && (forall id :: id in done ==> Reconciled(prev, curr, before, after, events, firstNew, id))
    && (forall id :: id !in done ==> Untouched(before, after, events, id))
  }

  /** Reconciled and Untouched depend on `id`'s own entry and events only. */
  lemma ReconciledFrame(prev: Snapshot, curr: Snapshot, before: map<Id, Client>, after: map<Id, Client>,
                        after': map<Id, Client>, events: seq<Event>, events': seq<Event>, firstNew: nat, id: Id)
    requires id in after' <==> id in after
    requires id in after ==> after'[id] == after[id]
    requires EventsFor(events', id) == EventsFor(events, id)
    ensures Reconciled(prev, curr, before, after, events, firstNew, id) ==> Reconciled(prev, curr, before, after', events', firstNew, id)
    ensures Untouched(before, after, events, id) ==> Untouched(before, after', events', id)
  {
  }

  /** Starting an untouched id of StartIds with a new client reconciles it. */
  lemma ProgressStart(prev: Snapshot, curr: Snapshot, before: map<Id, Client>, after: map<Id, Client>,
                      events: seq<Event>, firstNew: nat, done: set<Id>, i: Id, c: Client)
    requires Progress(prev, curr, before, after, events, firstNew, done)
    requires i !in done && i in StartIds(prev, curr) && c >= firstNew
    ensures Progress(prev, curr, before, after[i := c], events + [Started(i, c)], firstNew, done + {i})
  {
    var e := Started(i, c);
    var after', events' := after[i := c], events + [e];
    forall id | id != i
      ensures Reconciled(prev, curr, before, after, events, firstNew, id) ==> Reconciled(prev, curr, before, after', events', firstNew, id)
      ensures Untouched(before, after, events, id) ==> Untouched(before, after', events', id)
    {
      EventsForSnoc(events, e, id);
      ReconciledFrame(prev, curr, before, after, after', events, events', firstNew, id);
    }
    EventsForSnoc(events, e, i);
    assert Untouched(before, after, events, i);
    assert Reconciled(prev, curr, before, after', events', firstNew, i);
  }

  /** Ending the client of an untouched id of StopIds and deleting its entry reconciles it. */
  lemma ProgressStop(prev: Snapshot, curr: Snapshot, before: map<Id, Client>, after: map<Id, Client>,
                     events: seq<Event>, firstNew: nat, done: set<Id>, i: Id)
    requires Progress(prev, curr, before, after, events, firstNew, done)
    requires i !in done && i in StopIds(prev, curr) && i in after
    ensures Progress(prev, curr, before, after - {i}, events + [Ended(i, after[i])], firstNew, done + {i})
  {
    var e := Ended(i, after[i]);
    var after', events' := after - {i}, events + [e];
    forall id | id != i
      ensures Reconciled(prev, curr, before, after, events, firstNew, id) ==> Reconciled(prev, curr, before, after', events', firstNew, id)
      ensures Untouched(before, after, events, id) ==> Untouched(before, after', events', id)
    {
      EventsForSnoc(events, e, id);
      ReconciledFrame(prev, curr, before, after, after', events, events', firstNew, id);
    }
    StartsAndStopsApart(prev, curr);
    EventsForSnoc(events, e, i);
    assert Untouched(before, after, events, i);
    assert Reconciled(prev, curr, before, after', events', firstNew, i);
  }

  /** An id that is neither started nor stopped is reconciled by doing nothing. */
  lemma ProgressKeep(prev: Snapshot, curr: Snapshot, before: map<Id, Client>, after: map<Id, Client>,
                     events: seq<Event>, firstNew: nat, done: set<Id>, i: Id)
    requires Progress(prev, curr, before, after, events, firstNew, done)
    requires i !in StartIds(prev, curr) && i !in StopIds(prev, curr)
    ensures Progress(prev, curr, before, after, events, firstNew, done + {i})
  {
    if i !in done {
      assert Untouched(before, after, events, i);
    }
  }

  /** A stop that finds no table entry: the id was missing from the table from the start. */
  lemma ProgressFault(prev: Snapshot, curr: Snapshot, before: map<Id, Client>, after: map<Id, Client>,
                      events: seq<Event>, firstNew: nat, done: set<Id>, i: Id)
    requires Progress(prev, curr, before, after, events, firstNew, done)
    requires i !in done && i in StopIds(prev, curr) && i !in after
    ensures !(StopIds(prev, curr) <= before.Keys)
  {
    assert Untouched(before, after, events, i);
  }

  /** Part-way, every id is either reconciled or untouched. */
  lemma ProgressPartial(prev: Snapshot, curr: Snapshot, before: map<Id, Client>, after: map<Id, Client>,
                        events: seq<Event>, firstNew: nat, done: set<Id>)
    requires Progress(prev, curr, before, after, events, firstNew, done)
    ensures forall id :: Reconciled(prev, curr, before, after, events, firstNew, id) || Untouched(before, after, events, id)
  {
    forall id ensures Reconciled(prev, curr, before, after, events, firstNew, id) || Untouched(before, after, events, id) {
      if id in done {
        assert Reconciled(prev, curr, before, after, events, firstNew, id);
      } else {
        assert Untouched(before, after, events, id);
      }
    }
  }

  /** Once every id of both snapshots is done, every id at all is reconciled. */
  lemma ProgressComplete(prev: Snapshot, curr: Snapshot, before: map<Id, Client>, after: map<Id, Client>,
                         events: seq<Event>, firstNew: nat, done: set<Id>)
    requires Progress(prev, curr, before, after, events, firstNew, done)
    requires prev.Keys + curr.Keys <= done
    ensures StopIds(prev, curr) <= before.Keys
    ensures forall id :: Reconciled(prev, curr, before, after, events, firstNew, id)
    ensures after.Keys == NextKeys(before.Keys, prev, curr)
  {
    forall id ensures Reconciled(prev, curr, before, after, events, firstNew, id) {
      if id !in done {
        assert Untouched(before, after, events, id);
      }
    }
    forall id ensures id in after <==> id in NextKeys(before.Keys, prev, curr) {
      assert Reconciled(prev, curr, before, after, events, firstNew, id);
    }
  }

  /** A non-empty log has at least one event for the id of its last event. */
  lemma EventsForLast(log: seq<Event>)
    ensures log != [] ==> EventsFor(log, log[|log| - 1].id) != []
  {
  }

  /** Before any id is done, the table and the events are as they started. */
  lemma ProgressNothing(prev: Snapshot, curr: Snapshot, before: map<Id, Client>, after: map<Id, Client>,
                        events: seq<Event>, firstNew: nat)
    requires Progress(prev, curr, before, after, events, firstNew, {})
    ensures after == before && events == []
  {
    forall id ensures (id in after <==> id in before) && (id in after ==> after[id] == before[id])
                   && EventsFor(events, id) == [] {
      assert Untouched(before, after, events, id);
    }
    EventsForLast(events);
  }

  /** Appending one event to the log extends the events of this reconciliation. */
  lemma AppendAssoc(origin: seq<Event>, events: seq<Event>, added: seq<Event>)
    ensures (origin + events) + added == origin + (events + added)
  {
  }

  /** What the first loop leaves of `prevLinks` is exactly the removed ids. */
  lemma LeftoverIsRemoved(prev: Snapshot, curr: Snapshot, prevLinks: Snapshot, done: set<Id>)
    requires done == curr.Keys && prevLinks == prev - done
    ensures prevLinks.Keys == RemovedIds(prev, curr)
  {
  }

  /** The module-level state of the command: the `watchers` table, the clients
      created so far and the start/stop calls made on them. */
  class Supervisor {
    /** `watchers`: link id -> the client watching that link's source. */
    var watchers: map<Id, Client>
    /** Every start and stop, oldest first. */
    var log: seq<Event>
    /** How many clients have been created; the next one gets this number. */
    var created: nat
    /** The link each client was created for: a witness that no client serves two links. */
    ghost var owner: map<Client, Id>

    /** Every entry is a client created so far, and its owner is the entry's id. */
    ghost predicate Valid()
      reads this
    {
      forall id :: id in watchers ==> watchers[id] < created && watchers[id] in owner && owner[watchers[id]] == id
    }

    /** No client serves two links: each `startWatcher` creates its own. */
    lemma DistinctClients()
      requires Valid()
      ensures forall a, b :: a in watchers && b in watchers && a != b ==> watchers[a] != watchers[b]
    {
    }

    constructor ()
      ensures Valid()
      ensures watchers == map[] && log == [] && created == 0
    {
      watchers := map[];
      log := [];
      created := 0;
      owner := map[];
    }

    /** `startWatcher`: nothing for a disabled link; otherwise a new client
        that is put in the table at once, before any handshake step runs. */
    method StartWatcher(link: Link, linkId: Id) returns (client: Option<Client>)
      requires Valid()
      modifies this
      ensures Valid()
      ensures !link.enabled ==>
        client == None && watchers == old(watchers) && log == old(log) && created == old(created)
      ensures link.enabled ==>
        && client == Some(old(created))
        && created == old(created) + 1
        && watchers == old(watchers)[linkId := old(created)]
        && log == old(log) + [Started(linkId, old(created))]
    {
      if !link.enabled {
        return None;
      }
      var c := created;
      created := created + 1;
      watchers := watchers[linkId := c];
      owner := owner[c := linkId];
      log := log + [Started(linkId, c)];
      client := Some(c);
    }

    /** `stopWatcher`: `watcher.end()`. When the table had no entry the watcher
        is `undefined` and the call throws; `ok` is false then. The table is
        not touched here: the caller deletes the entry. */
    method StopWatcher(watcher: Option<Client>, linkId: Id) returns (ok: bool)
      modifies this
      ensures ok == watcher.Some?
      ensures watchers == old(watchers) && created == old(created) && owner == old(owner)
      ensures log == if ok then old(log) + [Ended(linkId, watcher.value)] else old(log)
    {
      if watcher.None? {
        return false;
      }
      log := log + [Ended(linkId, watcher.value)];
      ok := true;
    }

    /** `watchers[i] = startWatcher(links.data[i], i)` for an id that the
        first loop starts, keeping the bookkeeping of the reconciliation. */
    method StartEntry(link: Link, i: Id, ghost prev: Snapshot, ghost curr: Snapshot, ghost before: map<Id, Client>,
                      ghost firstNew: nat, ghost events: seq<Event>, ghost done: set<Id>)
      requires Valid() && created >= firstNew
      requires link.enabled && i !in done && i in StartIds(prev, curr)
      requires Progress(prev, curr, before, watchers, events, firstNew, done)
      modifies this
      ensures Valid() && created == old(created) + 1
      ensures watchers == old(watchers)[i := old(created)]
      ensures log == old(log) + [Started(i, old(created))]
      ensures Progress(prev, curr, before, watchers, events + [Started(i, old(created))], firstNew, done + {i})
    {
      ProgressStart(prev, curr, before, watchers, events, firstNew, done, i, created);
      ghost var table := watchers;
      var client := StartWatcher(link, i);
      watchers := watchers[i := client.value];
      assert watchers == table[i := old(created)];
    }

    /** `stopWatcher(watchers[i], ...); delete watchers[i]` for an id that
        reconciliation stops; `ok` is false when the table has no entry for
        `i` and the stop throws before the entry would be deleted. */
    method StopEntry(i: Id, ghost prev: Snapshot, ghost curr: Snapshot, ghost before: map<Id, Client>,
                     ghost firstNew: nat, ghost events: seq<Event>, ghost done: set<Id>)
      returns (ok: bool)
      requires Valid() && created >= firstNew
      requires i !in done && i in StopIds(prev, curr)
      requires Progress(prev, curr, before, watchers, events, firstNew, done)
      modifies this
      ensures Valid() && created == old(created)
      ensures ok <==> i in old(watchers)
      ensures !ok ==> watchers == old(watchers) && log == old(log) && !(StopIds(prev, curr) <= before.Keys)
      ensures ok ==> watchers == old(watchers) - {i}
      ensures ok ==> log == old(log) + [Ended(i, old(watchers)[i])]
      ensures ok ==> Progress(prev, curr, before, watchers, events + [Ended(i, old(watchers)[i])], firstNew, done + {i})
    {
      var watcher := if i in watchers then Some(watchers[i]) else None;
      ok := StopWatcher(watcher, i);
      if !ok {
        ProgressFault(prev, curr, before, watchers, events, firstNew, done, i);
        return;
      }
      ProgressStop(prev, curr, before, watchers, events, firstNew, done, i);
      watchers := watchers - {i};
    }

    /** One iteration of the first loop of `updateWatchers`, for the id `i`
        of the new snapshot: start its watcher if it became enabled, stop it
        and delete its entry if it stopped being enabled, else nothing.
        `prevEnabled` is `(prevLinks[i] || {}).enabled`. The log is `origin`
        followed by the events of this reconciliation, `events` before the
        iteration and `events'` after it. `ok` is false when the stop throws,
        which changes nothing. */
    method ApplyOne(i: Id, link: Link, prevEnabled: bool, ghost prev: Snapshot, ghost curr: Snapshot,
                    ghost before: map<Id, Client>, ghost firstNew: nat, ghost origin: seq<Event>,
                    ghost events: seq<Event>, ghost done: set<Id>)
      returns (ok: bool, ghost events': seq<Event>)
      requires Valid() && created >= firstNew && log == origin + events
      requires i in curr && link == curr[i] && prevEnabled == EnabledIn(prev, i) && i !in done
      requires Progress(prev, curr, before, watchers, events, firstNew, done)
      modifies this
      ensures Valid() && created >= old(created) && log == origin + events'
      ensures ok ==> Progress(prev, curr, before, watchers, events', firstNew, done + {i})
      ensures !ok ==> events' == events && watchers == old(watchers) && !(StopIds(prev, curr) <= before.Keys)
    {
      ok := true;
      events' := events;
      if !prevEnabled && link.enabled {
        ghost var e := Started(i, created);
        StartEntry(link, i, prev, curr, before, firstNew, events, done);
        AppendAssoc(origin, events, [e]);
        events' := events + [e];
      } else if prevEnabled && !link.enabled {
        ghost var e := Ended(i, if i in watchers then watchers[i] else 0);
        ok := StopEntry(i, prev, curr, before, firstNew, events, done);
        if ok {
          AppendAssoc(origin, events, [e]);
          events' := events + [e];
        }
      } else {
        ProgressKeep(prev, curr, before, watchers, events, firstNew, done, i);
      }
    }

    /** The first loop of `updateWatchers`: every id of the new snapshot has
        its watcher started or stopped as its enabled flag changed, and is
        deleted from `prevLinks`. Besides what is left of `prevLinks`, it
        returns the function-scoped `link` as the loop leaves it: the last link
        visited, or None when the loop never ran. `done` holds the ids visited;
        `ok` is false when a stop throws and leaves the loop part-way. */
    method ApplyLoaded(prev: Snapshot, curr: Snapshot)
      returns (ok: bool, prevLinks: Snapshot, link: Option<Link>, ghost events: seq<Event>, ghost done: set<Id>)
      requires Valid()
      modifies this
      ensures Valid() && created >= old(created)
      ensures log == old(log) + events
      ensures link == None ==> done == {}
      ensures Progress(prev, curr, old(watchers), watchers, events, old(created), done)
      ensures ok ==> done == curr.Keys && prevLinks.Keys == RemovedIds(prev, curr)
      ensures ok ==> (link == None <==> curr == map[])
      ensures !ok ==> curr != map[] && !(StopIds(prev, curr) <= old(watchers).Keys)
    {
      ghost var before, firstNew := watchers, created;
      done := {};
      events := [];
      ok := true;
      link := None;
      prevLinks := prev;
      var pending := curr.Keys;
      while ok && pending != {}
        invariant pending <= curr.Keys && done == curr.Keys - pending
        invariant prevLinks == prev - done
        invariant link == None ==> done == {}
        invariant link != None ==> curr != map[]
        invariant !ok ==> link != None && !(StopIds(prev, curr) <= before.Keys)
        invariant Valid() && created >= firstNew
        invariant log == old(log) + events
        invariant Progress(prev, curr, before, watchers, events, firstNew, done)
        decreases pending, ok
      {
        var i :| i in pending;
        link := Some(curr[i]);
        var prevEnabled := i in prevLinks && prevLinks[i].enabled;
        ok, events := ApplyOne(i, link.value, prevEnabled, prev, curr, before, firstNew, old(log), events, done);
        if ok {
          prevLinks := prevLinks - {i};
          pending := pending - {i};
          done := done + {i};
        }
      }
      if ok {
        LeftoverIsRemoved(prev, curr, prevLinks, done);
        if link == None {
          assert curr.Keys == {};
        }
      }
    }

    /** The second loop of `updateWatchers` as its comment describes it: the
        watcher of every removed id is stopped and its entry deleted. The log
        is `origin` followed by the events of this reconciliation, `events0`
        before the loop and `events` after it; `done` is what has been
        reconciled. `ok` is false when a stop throws. */
    method StopRemoved(removed: set<Id>, ghost prev: Snapshot, ghost curr: Snapshot, ghost before: map<Id, Client>,
                       ghost firstNew: nat, ghost origin: seq<Event>, ghost events0: seq<Event>)
      returns (ok: bool, ghost events: seq<Event>, ghost done: set<Id>)
      requires Valid() && created >= firstNew && log == origin + events0
      requires removed == RemovedIds(prev, curr)
      requires Progress(prev, curr, before, watchers, events0, firstNew, curr.Keys)
      modifies this
      ensures Valid() && created == old(created) && log == origin + events
      ensures Progress(prev, curr, before, watchers, events, firstNew, done)
      ensures ok ==> done == prev.Keys + curr.Keys
      ensures !ok ==> !(StopIds(prev, curr) <= before.Keys)
    {
      events := events0;
      ok := true;
      done := curr.Keys;
      var rest := removed;
      while rest != {}
        invariant rest <= removed && done == curr.Keys + (removed - rest)
        invariant Valid() && created >= firstNew && created == old(created)
        invariant log == origin + events
        invariant Progress(prev, curr, before, watchers, events, firstNew, done)
        decreases rest
      {
        var i :| i in rest;
        ghost var watcher := if i in watchers then watchers[i] else 0;
        ok := StopEntry(i, prev, curr, before, firstNew, events, done);
        if !ok {
          return;
        }
        AppendAssoc(origin, events, [Ended(i, watcher)]);
        events := events + [Ended(i, watcher)];
        rest := rest - {i};
        done := done + {i};
      }
    }

    /** `updateWatchers` as written, with `prev` the snapshot held before
        `links.load()` and `curr` the one it loaded. The removal loop passes
        `link.src` and `link.dest` to `stopWatcher`; when the new snapshot is
        empty, `link` was never assigned and reading it throws before the
        first removed watcher is ended. So it faults (`ok` false, the
        exception leaving the function part-way) exactly when some id it must
        stop has no table entry, or when it reloads an empty snapshot over a
        non-empty one; otherwise every id of either snapshot is reconciled
        and the table holds the reconciled keys. */
    method UpdateWatchers(prev: Snapshot, curr: Snapshot) returns (ok: bool)
      requires Valid()
      modifies this
      ensures Valid() && created >= old(created)
      ensures ok <==> StopIds(prev, curr) <= old(watchers).Keys && !ReadsUnassignedLink(prev, curr)
      ensures ReadsUnassignedLink(prev, curr) ==> watchers == old(watchers) && log == old(log)
      ensures |old(log)| <= |log| && log[..|old(log)|] == old(log)
      ensures forall id ::
        || Reconciled(prev, curr, old(watchers), watchers, log[|old(log)|..], old(created), id)
        || (!ok && Untouched(old(watchers), watchers, log[|old(log)|..], id))
      ensures ok ==> watchers.Keys == NextKeys(old(watchers).Keys, prev, curr)
      ensures old(watchers).Keys == EnabledIds(prev) && RemovedIds(prev, curr) <= EnabledIds(prev)
              && !ReadsUnassignedLink(prev, curr) ==>
        ok && watchers.Keys == EnabledIds(curr)
    {
      if old(watchers).Keys == EnabledIds(prev) && RemovedIds(prev, curr) <= EnabledIds(prev) {
        TableTracksEnabled(old(watchers).Keys, prev, curr);
      }
      var prevLinks, link;
      ghost var events, done;
      ok, prevLinks, link, events, done := ApplyLoaded(prev, curr);
      assert log[|old(log)|..] == events;
      if !ok {
        ProgressPartial(prev, curr, old(watchers), watchers, events, old(created), done);
        return;
      }
      // Turn off the watchers whose links are gone; each stop reads `link.src`.
      if prevLinks != map[] && link == None {
        ok := false;
        ProgressNothing(prev, curr, old(watchers), watchers, events, old(created));
        assert log == old(log);
        ProgressPartial(prev, curr, old(watchers), watchers, events, old(created), done);
        return;
      }
      ok, events, done := StopRemoved(prevLinks.Keys, prev, curr, old(watchers), old(created), old(log), events);
      assert log[|old(log)|..] == events;
      Finish(prev, curr, old(watchers), old(created), events, done, ok);
    }

    /** `updateWatchers` as its comment intends it: the removal loop passes the
        removed link's own `src` and `dest` (`prevLinks[i]`), so it faults
        exactly when some id it must stop has no table entry. */
    method UpdateWatchersIntended(prev: Snapshot, curr: Snapshot) returns (ok: bool)
      requires Valid()
      modifies this
      ensures Valid() && created >= old(created)
      ensures ok <==> StopIds(prev, curr) <= old(watchers).Keys
      ensures |old(log)| <= |log| && log[..|old(log)|] == old(log)
      ensures forall id ::
        || Reconciled(prev, curr, old(watchers), watchers, log[|old(log)|..], old(created), id)
        || (!ok && Untouched(old(watchers), watchers, log[|old(log)|..], id))
      ensures ok ==> watchers.Keys == NextKeys(old(watchers).Keys, prev, curr)
      ensures old(watchers).Keys == EnabledIds(prev) && RemovedIds(prev, curr) <= EnabledIds(prev) ==>
        ok && watchers.Keys == EnabledIds(curr)
    {
      if old(watchers).Keys == EnabledIds(prev) && RemovedIds(prev, curr) <= EnabledIds(prev) {
        TableTracksEnabled(old(watchers).Keys, prev, curr);
      }
      var prevLinks, link;
      ghost var events, done;
      ok, prevLinks, link, events, done := ApplyLoaded(prev, curr);
      assert log[|old(log)|..] == events;
      if !ok {
        ProgressPartial(prev, curr, old(watchers), watchers, events, old(created), done);
        return;
      }
      ok, events, done := StopRemoved(prevLinks.Keys, prev, curr, old(watchers), old(created), old(log), events);
      assert log[|old(log)|..] == events;
      Finish(prev, curr, old(watchers), old(created), events, done, ok);
    }

    /** The end of a reconciliation that got past the first loop. */
    lemma Finish(prev: Snapshot, curr: Snapshot, before: map<Id, Client>, firstNew: nat,
                 events: seq<Event>, done: set<Id>, ok: bool)
      requires Progress(prev, curr, before, watchers, events, firstNew, done)
      requires ok ==> done == prev.Keys + curr.Keys
      ensures forall id :: Reconciled(prev, curr, before, watchers, events, firstNew, id) || (!ok && Untouched(before, watchers, events, id))
      ensures ok ==> StopIds(prev, curr) <= before.Keys && watchers.Keys == NextKeys(before.Keys, prev, curr)
    {
      if ok {
        ProgressComplete(prev, curr, before, watchers, events, firstNew, done);
      } else {
        ProgressPartial(prev, curr, before, watchers, events, firstNew, done);
      }
    }
  }

  /** As written: reloading `{A: enabled}` as `{}` throws before A's watcher
      is ended, so the reload faults and A keeps its table entry. */
  method EmptyReloadKeepsWatcher() returns (ok: bool, kept: bool)
    ensures !ok && kept
  {
    var s := new Supervisor();
    var a := Link("src", "dest", true);
    var _ := s.StartWatcher(a, "A");
    ok := s.UpdateWatchers(map["A" := a], map[]);
    kept := "A" in s.watchers;
  }

  /** As intended: the same reload ends A's watcher and empties the table. */
  method EmptyReloadStopsWatcher() returns (ok: bool, kept: bool)
    ensures ok && !kept
  {
    var s := new Supervisor();
    var a := Link("src", "dest", true);
    var _ := s.StartWatcher(a, "A");
    assert s.watchers.Keys == EnabledIds(map["A" := a]);
    ok := s.UpdateWatchersIntended(map["A" := a], map[]);
    kept := "A" in s.watchers;
  }

  /** Enabling two links in one reload gives them two different clients. */
  method TwoStartsGetTwoClients() returns (a: Client, b: Client)
    ensures a != b
  {
    var s := new Supervisor();
    var on := Link("src", "dest", true);
    assert StartIds(map[], map["A" := on, "B" := on]) == {"A", "B"};
    var _ := s.UpdateWatchers(map[], map["A" := on, "B" := on]);
    s.DistinctClients();
    a, b := s.watchers["A"], s.watchers["B"];
  }
}
