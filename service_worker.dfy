/**
 * The event handlers of public/sw.js: install pre-caches a fixed manifest under one cache
 * generation, fetch answers cache-first with network fallback, activate deletes every
 * other generation, sync runs the audit-data job for one tag, and push shows a
 * notification with a fallback body.
 */
module ServiceWorker {
  import opened Wrappers
  import opened Caches

  /** The current cache generation. */
  const CacheName: string := "tama-auditor-v1"

  /** The manifest pre-cached on install, in order. */
  const UrlsToCache: seq<Url> := [
    "/",
    "/manifest.json",
    "/egg-logo.svg",
    "/icon-192.png",
    "/icon-512.png",
    "/_next/static/chunks/app/layout.js",
    "/_next/static/chunks/app/page.js",
    "/_next/static/css/app/layout.css"
  ]

  const SyncTag: string := "sync-audit-data"

  /** The manifest lists no URL twice, so `addAll` fails only when a fetch fails. */
  lemma ManifestDistinct(net: Network)
    ensures AddAllSucceeds(UrlsToCache, net) <==> Fetchable(UrlsToCache, net)
  {
  }

  /**
   * The install handler: `caches.open(generation)` then `cache.addAll(manifest)`.
   * public/sw.js passes `CACHE_NAME` and `urlsToCache`.
   */
  method Install(storage: CacheStorage, generation: string, manifest: seq<Url>, net: Network) returns (ok: bool)
    requires storage.Valid()
    modifies storage
    ensures storage.Valid()
    ensures ok <==> AddAllSucceeds(manifest, net)
    ensures storage.caches == if ok then Stored(Opened(old(storage.caches), generation), generation, Batch(manifest, net))
                              else Opened(old(storage.caches), generation)
  {
    storage.Open(generation);
    ok := storage.AddAll(generation, manifest, net);
  }

  /**
   * The install listener of public/sw.js: install `CacheName` with `UrlsToCache`. It
   * succeeds exactly when every manifest URL is fetched with an ok status other than 206.
   */
  method OnInstall(storage: CacheStorage, net: Network) returns (ok: bool)
    requires storage.Valid()
    modifies storage
    ensures storage.Valid()
    ensures ok <==> Fetchable(UrlsToCache, net)
    ensures storage.caches == if ok then Stored(Opened(old(storage.caches), CacheName), CacheName, Batch(UrlsToCache, net))
                              else Opened(old(storage.caches), CacheName)
  {
    ManifestDistinct(net);
    ok := Install(storage, CacheName, UrlsToCache, net);
  }

  /** The fetch handler: the first cached response in any cache, otherwise the network's answer (none: a network error). */
  function HandleFetch(cs: seq<NamedCache>, req: Request, net: Network): (r: Option<Response>)
    ensures (req.verb == "GET" && exists i :: 0 <= i < |cs| && req.url in cs[i].entries) ==>
      exists i :: 0 <= i < |cs| && req.url in cs[i].entries && r == Some(cs[i].entries[req.url])
                  && forall j :: 0 <= j < i ==> req.url !in cs[j].entries
    ensures !(req.verb == "GET" && exists i :: 0 <= i < |cs| && req.url in cs[i].entries) ==>
      r == Lookup(net, req.url)
  {
    match MatchAll(cs, req)
    case Some(cached) => Some(cached)
    case None => Lookup(net, req.url)
  }

  /** The names among `ns` that activate deletes: every one other than the current generation. */
  function Victims(ns: seq<string>, generation: string): (s: set<string>)
    ensures forall n :: n in s <==> n in ns && n != generation
  {
    if ns == [] then {}
    else
      var last := ns[|ns| - 1];
      assert ns == ns[..|ns| - 1] + [last];
      Victims(ns[..|ns| - 1], generation) + (if last != generation then {last} else {})
  }

  /** The caches activate deletes from storage `cs`. */
  function Stale(cs: seq<NamedCache>, generation: string): (s: set<string>)
    ensures generation !in s
    ensures forall n :: n in s <==> n in Names(cs) && n != generation
  {
    Victims(Names(cs), generation)
  }

  /** The activate handler: deletes, one by one, every cache whose name is not the current generation. */
  method Activate(storage: CacheStorage, generation: string)
    requires storage.Valid()
    modifies storage
    ensures storage.Valid()
    ensures storage.caches == Drop(old(storage.caches), Stale(old(storage.caches), generation))
  {
    var names := storage.Keys();
    ghost var start := storage.caches;
    ghost var deleted: set<string> := {};
    DropNone(start);
    var i := 0;
    while i < |names|
      invariant 0 <= i <= |names|
      invariant storage.Valid()
      invariant deleted == Victims(names[..i], generation)
      invariant storage.caches == Drop(start, deleted)
    {
      assert names[..i + 1][..i] == names[..i];
      deleted := DeleteUnlessCurrent(storage, names[i], generation, start, deleted);
      i := i + 1;
    }
    assert names[..i] == names;
  }

  /** The activate listener of public/sw.js: every cache other than `CacheName` is deleted. */
  method OnActivate(storage: CacheStorage)
    requires storage.Valid()
    modifies storage
    ensures storage.Valid()
    ensures storage.caches == Drop(old(storage.caches), Stale(old(storage.caches), CacheName))
    ensures forall n :: n in Names(storage.caches) ==> n == CacheName
  {
    ghost var before := storage.caches;
    Activate(storage, CacheName);
    OnlyGenerationLeft(before, CacheName);
  }

  /** One step of activate: `caches.delete(name)` unless `name` is the current generation. */
  method DeleteUnlessCurrent(storage: CacheStorage, name: string, generation: string,
                             ghost start: seq<NamedCache>, ghost deleted: set<string>) returns (ghost now: set<string>)
    requires storage.Valid() && storage.caches == Drop(start, deleted)
    modifies storage
    ensures storage.Valid() && storage.caches == Drop(start, now)
    ensures now == if name != generation then deleted + {name} else deleted
  {
    now := deleted;
    if name != generation {
      var _ := storage.Delete(name);
      DropDrop(start, deleted, {name});
      now := deleted + {name};
    }
  }

  /** The sync handler: only the tag `sync-audit-data` starts `syncAuditData`, which only logs and changes no cache. */
  method OnSync(tag: string) returns (synced: bool)
    ensures synced <==> tag == SyncTag
  {
    synced := false;
    if tag == SyncTag {
      synced := true;
    }
  }

  /** What the push handler shows: title, body, icon and badge. */
  datatype Notification = Notification(title: string, body: string, icon: string, badge: string)

  const DefaultBody: string := "Nouvelle notification"

  /**
   * The push handler's notification: the payload text when there is a non-empty one, the
   * fallback body otherwise (`||` also replaces an empty text), with a fixed title and icons.
   */
  function PushNotification(payload: Option<string>): (n: Notification)
    ensures n.title == "Tama Auditor" && n.icon == "/icon-192.png" && n.badge == "/icon-192.png"
    ensures n.body != ""
    ensures payload.Some? && payload.value != "" ==> n.body == payload.value
    ensures payload.None? || payload.value == "" ==> n.body == DefaultBody
  {
    var text := if payload.Some? then payload.value else "";
    Notification("Tama Auditor", if text != "" then text else DefaultBody, "/icon-192.png", "/icon-192.png")
  }

  /**
   * After a successful install the generation holds an entry for every manifest URL, with
   * the network's response.
   */
  lemma InstallFillsGeneration(cs: seq<NamedCache>, generation: string, manifest: seq<Url>, net: Network)
    requires AddAllSucceeds(manifest, net)
    ensures var after := Stored(Opened(cs, generation), generation, Batch(manifest, net));
      && Entries(after, generation).Some?
      && (forall u :: u in manifest ==> u in Entries(after, generation).value && Entries(after, generation).value[u] == net[u])
  {
    var openedCs := Opened(cs, generation);
    var batch := Batch(manifest, net);
    var after := Stored(openedCs, generation, batch);
    StoredEntries(openedCs, generation, batch, generation);
    var m := Entries(after, generation).value;
    assert m == Entries(openedCs, generation).value + batch;
    forall u | u in manifest ensures u in m && m[u] == net[u] {
      assert u in batch;
    }
  }

  /** Install, successful or not, changes no cache other than its own generation. */
  lemma InstallKeepsOthers(cs: seq<NamedCache>, generation: string, manifest: seq<Url>, net: Network, n: string)
    requires n != generation
    ensures AddAllSucceeds(manifest, net) ==>
      Entries(Stored(Opened(cs, generation), generation, Batch(manifest, net)), n) == Entries(cs, n)
    ensures Entries(Opened(cs, generation), n) == Entries(cs, n)
  {
    OpenedEntries(cs, generation, n);
    if AddAllSucceeds(manifest, net) {
      StoredEntries(Opened(cs, generation), generation, Batch(manifest, net), n);
    }
  }

  /**
   * A failed install writes no entry: the other caches are unchanged and the generation
   * either keeps its old entries or is a new, empty cache.
   */
  lemma FailedInstallAddsNothing(cs: seq<NamedCache>, generation: string, n: string)
    ensures Entries(Opened(cs, generation), n) ==
      if n == generation && generation !in Names(cs) then Some(map[]) else Entries(cs, n)
  {
    OpenedEntries(cs, generation, n);
  }

  /** A URL held by any cache is found by the cross-cache search. */
  lemma HitAt(cs: seq<NamedCache>, i: nat, url: Url)
    requires i < |cs| && url in cs[i].entries
    ensures FirstHit(cs, url).Some?
  {
  }

  /** Fetch is cache-first: on a hit the network is not consulted at all. */
  lemma CacheHitIgnoresNetwork(cs: seq<NamedCache>, req: Request, net1: Network, net2: Network)
    requires MatchAll(cs, req).Some?
    ensures HandleFetch(cs, req, net1) == HandleFetch(cs, req, net2) == MatchAll(cs, req)
  {
  }

  /** A manifest URL of a successful install is served from cache, even with no network at all. */
  lemma InstalledServedOffline(cs: seq<NamedCache>, generation: string, manifest: seq<Url>, net: Network, u: Url)
    requires AddAllSucceeds(manifest, net) && u in manifest
    ensures var after := Stored(Opened(cs, generation), generation, Batch(manifest, net));
      HandleFetch(after, Request("GET", u), map[]).Some?
  {
    var after := Stored(Opened(cs, generation), generation, Batch(manifest, net));
    InstallFillsGeneration(cs, generation, manifest, net);
    var i :| 0 <= i < |after| && after[i].name == generation && after[i].entries == Entries(after, generation).value;
    HitAt(after, i, u);
  }

  /**
   * Fetch searches old generations too: while an older cache that holds the URL is still
   * present, a fresh install of a new generation does not change what fetch answers; after
   * activate, the new generation's response is served.
   */
  lemma StaleGenerationShadows(cs: seq<NamedCache>, generation: string, manifest: seq<Url>, net: Network, u: Url, any: Network)
    requires DistinctNames(cs) && generation !in Names(cs)
    requires AddAllSucceeds(manifest, net) && u in manifest
    requires FirstHit(cs, u).Some?
    ensures var after := Stored(Opened(cs, generation), generation, Batch(manifest, net));
      && HandleFetch(after, Request("GET", u), any) == FirstHit(cs, u)
      && HandleFetch(Drop(after, Stale(after, generation)), Request("GET", u), any) == Some(net[u])
  {
    var newest := NamedCache(generation, Batch(manifest, net));
    var openedCs := cs + [NamedCache(generation, map[])];
    var after := Stored(openedCs, generation, Batch(manifest, net));
    assert after == cs + [newest] by {
      StoredFresh(cs, generation, Batch(manifest, net));
    }
    FirstHitAppend(cs, newest, u);
    DropStaleSingle(cs, newest);
    FirstHitSingle(newest, u);
  }

  /** Putting into a cache appended after the others touches only that cache. */
  lemma {:induction false} StoredFresh(cs: seq<NamedCache>, generation: string, batch: map<Url, Response>)
    requires generation !in Names(cs)
    ensures Stored(cs + [NamedCache(generation, map[])], generation, batch) == cs + [NamedCache(generation, batch)]
  {
    if cs == [] {
      assert [NamedCache(generation, map[])][1..] == [];
      assert map[] + batch == batch;
    } else {
      assert (cs + [NamedCache(generation, map[])])[1..] == cs[1..] + [NamedCache(generation, map[])];
      assert Names(cs)[0] == cs[0].name;
      assert generation !in Names(cs[1..]) by {
        forall k | 0 <= k < |cs[1..]| ensures Names(cs[1..])[k] != generation {
          assert Names(cs[1..])[k] == Names(cs)[k + 1];
        }
      }
      StoredFresh(cs[1..], generation, batch);
    }
  }

  /** Activate on old caches followed by a fresh generation leaves just that generation. */
  lemma {:induction false} DropStaleSingle(cs: seq<NamedCache>, c: NamedCache)
    requires c.name !in Names(cs)
    ensures Drop(cs + [c], Stale(cs + [c], c.name)) == [c]
  {
    var victims := Stale(cs + [c], c.name);
    assert forall n :: n in Names(cs) ==> n in victims by {
      forall n | n in Names(cs) ensures n in victims {
        var k :| 0 <= k < |cs| && Names(cs)[k] == n;
        assert Names(cs + [c])[k] == n;
      }
    }
    DropAllOld(cs, c, victims);
  }

  lemma {:induction false} DropAllOld(cs: seq<NamedCache>, c: NamedCache, victims: set<string>)
    requires forall n :: n in Names(cs) ==> n in victims
    requires c.name !in victims
    ensures Drop(cs + [c], victims) == [c]
  {
    if cs == [] {
      assert cs + [c] == [c];
      assert [c][1..] == [];
    } else {
      assert (cs + [c])[1..] == cs[1..] + [c];
      assert Names(cs)[0] == cs[0].name;
      forall n | n in Names(cs[1..]) ensures n in victims {
        var k :| 0 <= k < |cs[1..]| && Names(cs[1..])[k] == n;
        assert Names(cs)[k + 1] == n;
      }
      DropAllOld(cs[1..], c, victims);
    }
  }

  /** After activate, every remaining cache is the current generation. */
  lemma OnlyGenerationLeft(cs: seq<NamedCache>, generation: string)
    ensures forall n :: n in Names(Drop(cs, Stale(cs, generation))) ==> n == generation
  {
    forall n | n in Names(Drop(cs, Stale(cs, generation))) ensures n == generation {
      DropEntries(cs, Stale(cs, generation), n);
    }
  }

  /** Activate keeps the current generation's entries exactly as they were. */
  lemma ActivateKeepsCurrent(cs: seq<NamedCache>, generation: string)
    ensures Entries(Drop(cs, Stale(cs, generation)), generation) == Entries(cs, generation)
  {
    DropEntries(cs, Stale(cs, generation), generation);
  }

  /** Activate is idempotent: a second run finds nothing to delete. */
  lemma ActivateIdempotent(cs: seq<NamedCache>, generation: string)
    ensures var once := Drop(cs, Stale(cs, generation));
      Stale(once, generation) == {} && Drop(once, Stale(once, generation)) == once
  {
    var once := Drop(cs, Stale(cs, generation));
    OnlyGenerationLeft(cs, generation);
    assert Stale(once, generation) == {};
    DropNone(once);
  }

  /**
   * The generation cut-over: install a new generation beside the old ones, and activate
   * only when the install succeeded (a rejected install fails the worker, whose activate
   * never fires). On success only the new generation remains, holding the whole new
   * manifest, and every manifest URL is served from it without the network. On failure the
   * old generations stay, beside the cache `open` created.
   */
  method Cutover(storage: CacheStorage, next: string, manifest: seq<Url>, net: Network) returns (ok: bool)
    requires storage.Valid()
    modifies storage
    ensures storage.Valid()
    ensures ok <==> AddAllSucceeds(manifest, net)
    ensures ok ==> forall n :: n in Names(storage.caches) ==> n == next
    ensures ok ==> forall u :: u in manifest ==>
      u in net && HandleFetch(storage.caches, Request("GET", u), map[]) == Some(net[u])
    ensures !ok ==> storage.caches == Opened(old(storage.caches), next)
  {
    ok := Install(storage, next, manifest, net);
    if ok {
      ghost var installed := storage.caches;
      Activate(storage, next);
      OnlyGenerationLeft(installed, next);
      forall u | u in manifest
        ensures u in net && HandleFetch(storage.caches, Request("GET", u), map[]) == Some(net[u])
      {
        ServedAfterCutover(old(storage.caches), next, manifest, net, u);
      }
    }
  }

  /** After install and activate, a manifest URL is answered with the response the install fetched. */
  lemma ServedAfterCutover(cs: seq<NamedCache>, next: string, manifest: seq<Url>, net: Network, u: Url)
    requires DistinctNames(cs)
    requires AddAllSucceeds(manifest, net) && u in manifest
    ensures var installed := Stored(Opened(cs, next), next, Batch(manifest, net));
      HandleFetch(Drop(installed, Stale(installed, next)), Request("GET", u), map[]) == Some(net[u])
  {
    var installed := Stored(Opened(cs, next), next, Batch(manifest, net));
    InstallFillsGeneration(cs, next, manifest, net);
    OpenedDistinct(cs, next);
    StoredDistinct(Opened(cs, next), next, Batch(manifest, net));
    ActivateLeavesOne(installed, next);
    FirstHitSingle(NamedCache(next, Entries(installed, next).value), u);
  }

  /** With distinct names, activate leaves exactly one cache: the current generation, with its entries. */
  lemma ActivateLeavesOne(cs: seq<NamedCache>, generation: string)
    requires DistinctNames(cs) && generation in Names(cs)
    ensures Drop(cs, Stale(cs, generation)) == [NamedCache(generation, Entries(cs, generation).value)]
  {
    var left := Drop(cs, Stale(cs, generation));
    ActivateKeepsCurrent(cs, generation);
    OnlyGenerationLeft(cs, generation);
    DropDistinct(cs, Stale(cs, generation));
    SingleName(left, generation);
  }

  /** A storage with distinct names, all of them `generation`, is that one cache. */
  lemma SingleName(cs: seq<NamedCache>, generation: string)
    requires DistinctNames(cs) && generation in Names(cs)
    requires forall n :: n in Names(cs) ==> n == generation
    ensures cs == [NamedCache(generation, Entries(cs, generation).value)]
  {
    forall i | 0 <= i < |cs| ensures cs[i].name == generation {
      assert Names(cs)[i] == cs[i].name;
      assert Names(cs)[i] in Names(cs);
    }
    assert |cs| <= 1;
    assert cs == [cs[0]];
  }
}
