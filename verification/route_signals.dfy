/** The signal handlers of apps/routes/signals.py around the writes of one transaction: what they remember
    before a save and which invalidations they append to run after commit. */
module RouteSignals {
  import opened PyStrings
  import opened Routing
  import opened RouteCatalog

  lemma KeysAppend(s: seq<Key>, k: Key)
    ensures Elements(s + [k]) == Elements(s) + {k}
  {
  }

  /** A transaction may be extended by one write. */
  lemma {:induction false} WriteAppended(c: Catalog, ws: seq<Write>, w: Write)
    requires AllAccepted(c, ws) && Accepted(ApplyAll(c, ws), w)
    ensures AllAccepted(c, ws + [w]) && ApplyAll(c, ws + [w]) == Apply(ApplyAll(c, ws), w)
    ensures ScheduledAll(c, ws + [w]) == ScheduledAll(c, ws) + Scheduled(ApplyAll(c, ws), w)
    decreases |ws|
  {
    hide Accepted, Apply, Scheduled;
    if ws == [] {
      assert [w][1..] == [];
    } else {
      assert (ws + [w])[1..] == ws[1..] + [w];
      WriteAppended(Apply(c, ws[0]), ws[1..], w);
    }
  }

  class Transaction {
    var catalog: Catalog
    var onCommit: seq<Key>
    var previous: Option<Key>
    ghost const start: Catalog
    ghost var writes: seq<Write>

    /** The queue holds what the writes so far have scheduled. */
    ghost predicate Valid()
      reads this
    {
      && WellFormed(catalog) && AllAccepted(start, writes)
      && catalog == ApplyAll(start, writes) && Elements(onCommit) == ScheduledAll(start, writes)
    }

    constructor (catalog: Catalog)
      requires WellFormed(catalog)
      ensures Valid() && this.catalog == catalog == start && onCommit == [] && writes == []
    {
      this.catalog, start, onCommit, previous, writes := catalog, catalog, [], None, [];
    }

    /** remember_previous_route. */
    method RememberPrevious(id: nat)
      modifies this`previous
      ensures previous == if id in catalog.routes then Some(catalog.routes[id].key) else None
    {
      previous := None;
      if id in catalog.routes { previous := Some(catalog.routes[id].key); }
    }

    /** _invalidate_after_commit. */
    method InvalidateAfterCommit(key: Key)
      modifies this`onCommit
      ensures onCommit == if key.path == "" then old(onCommit) else old(onCommit) + [key]
      ensures Elements(onCommit) == Elements(old(onCommit)) + if key.path == "" then {} else {key}
    {
      KeysAppend(onCommit, key);
      if key.path != "" { onCommit := onCommit + [key]; }
    }

    /** Route.save with its signals; a refused save changes no table and schedules nothing. */
    method Save(id: nat, instance: Route, fields: Fields) returns (ok: bool)
      requires Valid()
      modifies this
      ensures Valid()
      ensures ok <==> Accepted(old(catalog), SaveRoute(id, instance, fields))
      ensures writes == if ok then old(writes) + [SaveRoute(id, instance, fields)] else old(writes)
      ensures old(onCommit) <= onCommit && (!ok ==> onCommit == old(onCommit))
    {
      hide AllAccepted, ApplyAll, ScheduledAll, Elements, ValidBasePath;
      var write := SaveRoute(id, instance, fields);
      if !ValidBasePath(instance.key.path) { return false; }
      RememberPrevious(id);
      if !Accepted(catalog, write) { return false; }
      WriteAppended(start, writes, write);
      WriteKeepsTables(catalog, write);
      Named(catalog, write);
      catalog := Apply(catalog, write);
      InvalidateAfterCommit(instance.key);
      if previous.Some? && previous.value != instance.key {
        InvalidateAfterCommit(previous.value);
      }
      writes := writes + [write];
      ok := true;
    }

    /** Route.delete with its signal. */
    method Delete(id: nat, instanceKey: Key)
      requires Valid() && id in catalog.routes
      modifies this
      ensures Valid() && writes == old(writes) + [DeleteRoute(id, instanceKey)] && old(onCommit) <= onCommit
    {
      hide AllAccepted, ApplyAll, ScheduledAll, Elements;
      WriteAppended(start, writes, DeleteRoute(id, instanceKey));
      WriteKeepsTables(catalog, DeleteRoute(id, instanceKey));
      catalog := Apply(catalog, DeleteRoute(id, instanceKey));
      InvalidateAfterCommit(instanceKey);
      writes := writes + [DeleteRoute(id, instanceKey)];
    }

    /** Schedules every base path of the service. */
    method InvalidateServiceRoutes(users: set<nat>)
      requires WellFormed(catalog) && users <= catalog.routes.Keys
      modifies this`onCommit
      ensures old(onCommit) <= onCommit
      ensures Elements(onCommit) == Elements(old(onCommit)) + set i <- users :: catalog.routes[i].key
    {
      ghost var queue := onCommit;
      var todo := users;
      while todo != {}
        invariant todo <= users && queue <= onCommit
        invariant Elements(onCommit) == Elements(queue) + set i <- users - todo :: catalog.routes[i].key
      {
        hide Elements;
        var i :| i in todo;
        var key := catalog.routes[i].key;
        assert ValidBasePath(key.path);
        InvalidateAfterCommit(key);
        assert users - (todo - {i}) == users - todo + {i};
        todo := todo - {i};
      }
      assert users - todo == users;
    }

    /** BackendService.save with its signal. */
    method Update(id: nat, service: Service)
      requires Valid()
      modifies this
      ensures Valid() && writes == old(writes) + [SaveService(id, service)] && old(onCommit) <= onCommit
    {
      hide AllAccepted, ApplyAll, ScheduledAll, Elements;
      WriteAppended(start, writes, SaveService(id, service));
      WriteKeepsTables(catalog, SaveService(id, service));
      catalog := Apply(catalog, SaveService(id, service));
      InvalidateServiceRoutes(Users(catalog, id));
      writes := writes + [SaveService(id, service)];
    }

    /** Deleting a service takes its routes along; the post_delete signal runs for each of them. */
    method DeleteWithRoutes(id: nat)
      requires Valid() && id in catalog.services
      modifies this
      ensures Valid() && writes == old(writes) + [DeleteService(id)] && old(onCommit) <= onCommit
    {
      hide AllAccepted, ApplyAll, ScheduledAll, Elements;
      WriteAppended(start, writes, DeleteService(id));
      WriteKeepsTables(catalog, DeleteService(id));
      InvalidateServiceRoutes(Users(catalog, id));
      catalog := Apply(catalog, DeleteService(id));
      writes := writes + [DeleteService(id)];
    }

    /** Whatever lookup the committed transaction changes, spelt like the row it finds, its queue invalidates,
        if its instances were fresh. */
    lemma QueueCovers(key: Key)
      requires Valid() && WellFormed(start) && AllFresh(start, writes)
      requires ShownDifferently(start, catalog, key)
      ensures key in onCommit
    {
      hide AllAccepted, ApplyAll, ScheduledAll, ReadRoute, Own, AllFresh, WellFormed;
      TransactionCovers(start, writes);
      assert key in Elements(onCommit);
    }
  }

  /** Paths in the tables and in an accepted save are not empty. */
  lemma Named(c: Catalog, w: Write)
    requires WellFormed(c) && Accepted(c, w) && w.SaveRoute?
    ensures w.instance.key.path != "" && (w.id in c.routes ==> c.routes[w.id].key.path != "")
  {
  }
}
