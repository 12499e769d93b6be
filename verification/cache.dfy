/** The two memoised reads and the two writes. Each read is a single-slot cache with its own
    time-to-live; each write, once the store has accepted it, empties the sites slot and no
    other. The remote store is seen only through the calls issued to it: what a select would
    return and whether a write succeeds are parameters. */
module Cache {
  import opened Wrappers
  import opened Sites
  import opened Assembly
  import opened Forms

  /** A cached value and the time, in seconds, it was stored. */
  datatype Entry<T> = Entry(value: T, storedAt: real)

  /** Lifetime of the cached sites, in seconds. */
  const SitesTtl: real := 60.0

  /** Lifetime of the cached client lookup, in seconds. */
  const ClientsTtl: real := 300.0

  /** A slot holds a value that may still be served at time `now`. */
  predicate Fresh<T>(slot: Option<Entry<T>>, now: real, ttl: real)
  {
    slot.Some? && now - slot.value.storedAt < ttl
  }

  /** No site flagged `ignore_site` is in `sites`: what the select's `ignore_site = false`
      condition guarantees of its result. */
  ghost predicate NoIgnoredSite(sites: seq<Site>)
  {
    forall i :: 0 <= i < |sites| ==> !sites[i].ignoreSite
  }

  /** A request sent to the remote store. */
  datatype Call =
    | SelectSites
    | SelectClients
    | UpdateSite(id: int, update: UpdateData)
    | InsertSite(insert: InsertData)

  class DataCache {
    var sitesSlot: Option<Entry<seq<Site>>>
    var clientsSlot: Option<Entry<ClientMap>>
    /** Every request issued to the remote store, oldest first. */
    var calls: seq<Call>

    /** The working set of sites never holds an ignored site. */
    ghost predicate Valid()
      reads this
    {
      sitesSlot.Some? ==> NoIgnoredSite(sitesSlot.value.value)
    }

    constructor ()
      ensures Valid()
      ensures sitesSlot == None && clientsSlot == None && calls == []
    {
      sitesSlot := None;
      clientsSlot := None;
      calls := [];
    }

    /** `charger_sites()`: the cached sites while younger than 60 s; otherwise one select.
        `fetched` is what that select returns, `None` when it raises. A result is stored with
        the time `now`; a failure stores nothing, returns nothing and never falls back on an
        expired entry. */
    method LoadSites(now: real, fetched: Option<seq<Site>>) returns (sites: Option<seq<Site>>)
      requires Valid() && (fetched.Some? ==> NoIgnoredSite(fetched.value))
      modifies this
      ensures Valid() && (sites.Some? ==> NoIgnoredSite(sites.value))
      ensures Fresh(old(sitesSlot), now, SitesTtl) ==>
        sites == Some(old(sitesSlot).value.value) && sitesSlot == old(sitesSlot) && calls == old(calls)
      ensures !Fresh(old(sitesSlot), now, SitesTtl) ==>
        sites == fetched && calls == old(calls) + [SelectSites] &&
        sitesSlot == (if fetched.Some? then Some(Entry(fetched.value, now)) else old(sitesSlot))
      ensures clientsSlot == old(clientsSlot)
    {
      if Fresh(sitesSlot, now, SitesTtl) {
        sites := Some(sitesSlot.value.value);
      } else {
        calls := calls + [SelectSites];
        sites := fetched;
        if fetched.Some? {
          sitesSlot := Some(Entry(fetched.value, now));
        }
      }
    }

    /** `charger_clients()`: the cached lookup while younger than 300 s; otherwise one select
        of the client rows `fetched` (`None` when it raises), turned into the id-to-name lookup
        and stored; a failure stores nothing and returns nothing. */
    method LoadClients(now: real, fetched: Option<seq<ClientRow>>) returns (clients: Option<ClientMap>)
      requires Valid()
      modifies this
      ensures Valid()
      ensures Fresh(old(clientsSlot), now, ClientsTtl) ==>
        clients == Some(old(clientsSlot).value.value) && clientsSlot == old(clientsSlot) && calls == old(calls)
      ensures !Fresh(old(clientsSlot), now, ClientsTtl) && fetched.Some? ==>
        clients == Some(ClientsById(fetched.value)) && clientsSlot == Some(Entry(ClientsById(fetched.value), now)) &&
        calls == old(calls) + [SelectClients]
      ensures !Fresh(old(clientsSlot), now, ClientsTtl) && fetched.None? ==>
        clients == None && clientsSlot == old(clientsSlot) && calls == old(calls) + [SelectClients]
      ensures sitesSlot == old(sitesSlot)
    {
      if Fresh(clientsSlot, now, ClientsTtl) {
        clients := Some(clientsSlot.value.value);
      } else {
        calls := calls + [SelectClients];
        if fetched.Some? {
          var lookup := ClientsById(fetched.value);
          clients := Some(lookup);
          clientsSlot := Some(Entry(lookup, now));
        } else {
          clients := None;
        }
      }
    }

    /** `sauvegarder_site(id, data)`: one update; the sites slot is cleared only when the store
        accepts it (a failure raises before the clear). */
    method SaveSite(siteId: int, data: UpdateData, succeeded: bool)
      requires Valid()
      modifies this
      ensures Valid()
      ensures calls == old(calls) + [UpdateSite(siteId, data)]
      ensures sitesSlot == if succeeded then None else old(sitesSlot)
      ensures clientsSlot == old(clientsSlot)
    {
      calls := calls + [UpdateSite(siteId, data)];
      if succeeded {
        sitesSlot := None;
      }
    }

    /** `ajouter_site(data)`: one insert, with the same invalidation as `SaveSite`. */
    method AddSite(data: InsertData, succeeded: bool)
      requires Valid()
      modifies this
      ensures Valid()
      ensures calls == old(calls) + [InsertSite(data)]
      ensures sitesSlot == if succeeded then None else old(sitesSlot)
      ensures clientsSlot == old(clientsSlot)
    {
      calls := calls + [InsertSite(data)];
      if succeeded {
        sitesSlot := None;
      }
    }

    /** Submitting the edit form for the site `s`: its values become the update of row `s.id`. */
    method SubmitEdit(s: Site, f: EditForm, succeeded: bool)
      requires Valid()
      modifies this
      ensures Valid()
      ensures calls == old(calls) + [UpdateSite(s.id, UpdatePayload(f))]
      ensures sitesSlot == if succeeded then None else old(sitesSlot)
      ensures clientsSlot == old(clientsSlot)
    {
      SaveSite(s.id, UpdatePayload(f), succeeded);
    }

    /** Submitting the add form: a refused form sends nothing and changes nothing; an accepted
        one sends exactly its insert. */
    method SubmitAdd(f: AddForm, succeeded: bool) returns (outcome: Result<InsertData, AddError>)
      requires Valid()
      modifies this
      ensures Valid()
      ensures outcome == AddPayload(f)
      ensures outcome.Err? ==> calls == old(calls) && sitesSlot == old(sitesSlot)
      ensures outcome.Ok? ==>
        calls == old(calls) + [InsertSite(outcome.value)] &&
        sitesSlot == (if succeeded then None else old(sitesSlot))
      ensures clientsSlot == old(clientsSlot)
    {
      outcome := AddPayload(f);
      if outcome.Ok? {
        AddSite(outcome.value, succeeded);
      }
    }
  }

  /** A read within 60 s of a fetch is served from the slot; after a successful save, the next
      read fetches again however little time has passed, and the client lookup stays cached; a
      failing select after expiry serves nothing, and the next read selects again. */
  method SaveThenReload(now: real, before: seq<Site>, after: seq<Site>, rows: seq<ClientRow>, siteId: int, d: UpdateData)
    requires NoIgnoredSite(before) && NoIgnoredSite(after)
  {
    var cache := new DataCache();
    var clients := cache.LoadClients(now, Some(rows));
    var first := cache.LoadSites(now, Some(before));
    assert first == Some(before) && cache.calls == [SelectClients, SelectSites];
    var again := cache.LoadSites(now + 59.0, Some(after));
    assert again == Some(before) && |cache.calls| == 2;
    cache.SaveSite(siteId, d, true);
    var reread := cache.LoadSites(now + 59.0, Some(after));
    assert reread == Some(after) && cache.calls[3] == SelectSites;
    var clientsAgain := cache.LoadClients(now + 59.0, None);
    assert clientsAgain == clients && |cache.calls| == 4;
    var failed := cache.LoadSites(now + 119.0, None);
    assert failed == None && cache.calls[4] == SelectSites;
    var late := cache.LoadSites(now + 119.0, Some(before));
    assert late == Some(before) && cache.calls[5] == SelectSites;
  }
}
