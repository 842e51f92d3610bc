/**
 * The slice of the Cache API that public/sw.js uses, after the W3C Service Workers
 * specification: a cache storage is an ordered list of named caches (oldest first), each a
 * map from request URL to stored response. The network is a partial map: a URL it lacks
 * is a network error.
 */
module Caches {
  import opened Wrappers

  type Url = string

  datatype Request = Request(verb: string, url: Url)

  datatype Response = Response(status: int, body: string)

  /** An "ok status" in the Fetch standard's sense: 200 to 299. */
  predicate IsOk(r: Response) {
    200 <= r.status <= 299
  }

  /** A response `addAll` accepts: an ok status other than 206 (Partial Content). */
  predicate Cacheable(r: Response) {
    IsOk(r) && r.status != 206
  }

  type Network = map<Url, Response>

  datatype NamedCache = NamedCache(name: string, entries: map<Url, Response>)

  /** The result of `caches.keys()`: the cache names in order. */
  function Names(cs: seq<NamedCache>): (ns: seq<string>)
    ensures |ns| == |cs|
    ensures forall i :: 0 <= i < |cs| ==> ns[i] == cs[i].name
  {
    if cs == [] then [] else [cs[0].name] + Names(cs[1..])
  }

  ghost predicate DistinctNames(cs: seq<NamedCache>) {
    forall i, j :: 0 <= i < j < |cs| ==> cs[i].name != cs[j].name
  }

  /** The entries of the cache called `name`, if there is one. */
  function Entries(cs: seq<NamedCache>, name: string): (r: Option<map<Url, Response>>)
    ensures r.Some? <==> name in Names(cs)
    ensures r.Some? ==> exists i :: 0 <= i < |cs| && cs[i].name == name && cs[i].entries == r.value
  {
    if cs == [] then None
    else if cs[0].name == name then Some(cs[0].entries)
    else
      var r := Entries(cs[1..], name);
      assert r.Some? ==> exists i :: 1 <= i < |cs| && cs[i].name == name && cs[i].entries == r.value by {
        if r.Some? {
          var i :| 0 <= i < |cs[1..]| && cs[1..][i].name == name && cs[1..][i].entries == r.value;
          assert cs[i + 1] == cs[1..][i];
        }
      }
      r
  }

  /** Looking a name up past the end of a storage falls through to the appended cache. */
  lemma {:induction false} EntriesAppend(cs: seq<NamedCache>, c: NamedCache, name: string)
    ensures Entries(cs + [c], name) ==
      if name in Names(cs) then Entries(cs, name) else if c.name == name then Some(c.entries) else None
  {
    if cs == [] {
      assert cs + [c] == [c];
    } else {
      assert (cs + [c])[1..] == cs[1..] + [c];
      EntriesAppend(cs[1..], c, name);
    }
  }

  /** Storage after `caches.open(name)`: an existing cache is reused, otherwise an empty one is appended. */
  function Opened(cs: seq<NamedCache>, name: string): (r: seq<NamedCache>)
    ensures name in Names(r)
  {
    if name in Names(cs) then cs
    else
      assert Names(cs + [NamedCache(name, map[])])[|cs|] == name;
      cs + [NamedCache(name, map[])]
  }

  /** Opening a cache creates at most an empty cache under that name and changes no other cache. */
  lemma OpenedEntries(cs: seq<NamedCache>, name: string, n: string)
    ensures Entries(Opened(cs, name), n) ==
      if n == name && name !in Names(cs) then Some(map[]) else Entries(cs, n)
  {
    if name !in Names(cs) {
      EntriesAppend(cs, NamedCache(name, map[]), n);
    }
  }

  lemma OpenedDistinct(cs: seq<NamedCache>, name: string)
    requires DistinctNames(cs)
    ensures DistinctNames(Opened(cs, name))
  {
    if name !in Names(cs) {
      var r := cs + [NamedCache(name, map[])];
      forall i, j | 0 <= i < j < |r| ensures r[i].name != r[j].name {
        if j == |cs| {
          assert Names(cs)[i] == cs[i].name;
        }
      }
    }
  }

  predicate Distinct(urls: seq<Url>) {
    forall i, j :: 0 <= i < j < |urls| ==> urls[i] != urls[j]
  }

  /** Every URL can be fetched and answers with an ok status. */
  predicate Fetchable(urls: seq<Url>, net: Network) {
    forall u :: u in urls ==> u in net && Cacheable(net[u])
  }

  /**
   * When `cache.addAll(urls)` fulfils: no URL is requested twice, and every fetch succeeds
   * with an ok status other than 206 (section 5.4.4 of the W3C Service Workers
   * specification). It then writes one entry per requested URL.
   */
  predicate AddAllSucceeds(urls: seq<Url>, net: Network): (b: bool)
    ensures b ==> Fetchable(urls, net) && |Batch(urls, net).Keys| == |urls|
  {
    if Distinct(urls) && Fetchable(urls, net) then
      DistinctCount(urls);
      true
    else
      false
  }

  /** A list with no repeated URL has as many distinct URLs as it has elements. */
  lemma {:induction false} DistinctCount(urls: seq<Url>)
    requires Distinct(urls)
    ensures |set u | u in urls| == |urls|
  {
    if urls != [] {
      var rest := urls[1..];
      assert Distinct(rest) by {
        forall i, j | 0 <= i < j < |rest| ensures rest[i] != rest[j] {
          assert rest[i] == urls[i + 1] && rest[j] == urls[j + 1];
        }
      }
      DistinctCount(rest);
      assert (set u | u in urls) == (set u | u in rest) + {urls[0]};
      assert urls[0] !in (set u | u in rest) by {
        forall k | 0 <= k < |rest| ensures rest[k] != urls[0] {
          assert rest[k] == urls[k + 1];
        }
      }
    }
  }

  /** The entries `addAll` writes: each URL with the response the network gave for it. */
  function Batch(urls: seq<Url>, net: Network): (b: map<Url, Response>)
    requires Fetchable(urls, net)
    ensures b.Keys == set u | u in urls
    ensures forall u :: u in b ==> b[u] == net[u]
  {
    map u | u in urls :: net[u]
  }

  /** Storage after `batch` is put into the cache called `name`; a put replaces an entry with the same URL. */
  function Stored(cs: seq<NamedCache>, name: string, batch: map<Url, Response>): (r: seq<NamedCache>)
    ensures Names(r) == Names(cs)
  {
    if cs == [] then []
    else
      var rest := Stored(cs[1..], name, batch);
      var head := if cs[0].name == name then cs[0].(entries := cs[0].entries + batch) else cs[0];
      assert ([head] + rest)[1..] == rest;
      [head] + rest
  }

  /** A put adds the batch to the named cache and leaves every other cache as it was. */
  lemma {:induction false} StoredEntries(cs: seq<NamedCache>, name: string, batch: map<Url, Response>, n: string)
    ensures Entries(Stored(cs, name, batch), n) ==
      if n == name && n in Names(cs) then Some(Entries(cs, n).value + batch) else Entries(cs, n)
  {
    if cs != [] {
      var r := Stored(cs, name, batch);
      assert r[1..] == Stored(cs[1..], name, batch);
      StoredEntries(cs[1..], name, batch, n);
    }
  }

  /** A put keeps the cache names, so it keeps them distinct. */
  lemma StoredDistinct(cs: seq<NamedCache>, name: string, batch: map<Url, Response>)
    requires DistinctNames(cs)
    ensures DistinctNames(Stored(cs, name, batch))
  {
    var r := Stored(cs, name, batch);
    forall i, j | 0 <= i < j < |r| ensures r[i].name != r[j].name {
      assert Names(r)[i] == Names(cs)[i];
      assert Names(r)[j] == Names(cs)[j];
    }
  }

  /** Storage with every cache whose name is in `victims` deleted, the rest kept in order. */
  function Drop(cs: seq<NamedCache>, victims: set<string>): (r: seq<NamedCache>)
    ensures |r| <= |cs|
  {
    if cs == [] then []
    else if cs[0].name in victims then Drop(cs[1..], victims)
    else [cs[0]] + Drop(cs[1..], victims)
  }

  /** Deleting removes exactly the victims' caches and keeps the contents of every other one. */
  lemma {:induction false} DropEntries(cs: seq<NamedCache>, victims: set<string>, n: string)
    ensures Entries(Drop(cs, victims), n) == if n in victims then None else Entries(cs, n)
    ensures n in Names(Drop(cs, victims)) <==> n in Names(cs) && n !in victims
  {
    if cs != [] {
      DropEntries(cs[1..], victims, n);
      if cs[0].name !in victims {
        assert Drop(cs, victims)[1..] == Drop(cs[1..], victims);
      }
    }
  }

  /** Deleting the caches of `a`, then of `b`, deletes the caches of both. */
  lemma {:induction false} DropDrop(cs: seq<NamedCache>, a: set<string>, b: set<string>)
    ensures Drop(Drop(cs, a), b) == Drop(cs, a + b)
  {
    if cs != [] {
      DropDrop(cs[1..], a, b);
      if cs[0].name !in a {
        assert Drop(cs, a)[1..] == Drop(cs[1..], a);
      }
    }
  }

  /** Deleting nothing changes nothing. */
  lemma {:induction false} DropNone(cs: seq<NamedCache>)
    ensures Drop(cs, {}) == cs
  {
    if cs != [] {
      DropNone(cs[1..]);
      assert cs == [cs[0]] + cs[1..];
    }
  }

  /** Deleting caches keeps the remaining names distinct. */
  lemma {:induction false} DropDistinct(cs: seq<NamedCache>, victims: set<string>)
    requires DistinctNames(cs)
    ensures DistinctNames(Drop(cs, victims))
  {
    if cs != [] {
      DropDistinct(cs[1..], victims);
      var rest := Drop(cs[1..], victims);
      if cs[0].name !in victims {
        var r := [cs[0]] + rest;
        forall i, j | 0 <= i < j < |r| ensures r[i].name != r[j].name {
          if i == 0 {
            var n := rest[j - 1].name;
            assert Names(rest)[j - 1] == n;
            DropEntries(cs[1..], victims, n);
            assert n in Names(cs[1..]);
            var k :| 0 <= k < |cs[1..]| && Names(cs[1..])[k] == n;
            assert cs[k + 1].name == n;
          }
        }
      }
    }
  }

  /** The first entry for `url` in cache order. */
  function FirstHit(cs: seq<NamedCache>, url: Url): (r: Option<Response>)
    ensures r.Some? <==> exists i :: 0 <= i < |cs| && url in cs[i].entries
    ensures r.Some? ==> exists i :: 0 <= i < |cs| && url in cs[i].entries && r.value == cs[i].entries[url]
                                      && forall j :: 0 <= j < i ==> url !in cs[j].entries
  {
    if cs == [] then None
    else if url in cs[0].entries then Some(cs[0].entries[url])
    else
      var r := FirstHit(cs[1..], url);
      assert r.Some? <==> exists i :: 1 <= i < |cs| && url in cs[i].entries by {
        if r.Some? {
          var i :| 0 <= i < |cs[1..]| && url in cs[1..][i].entries;
          assert cs[i + 1] == cs[1..][i];
        }
        if exists i :: 1 <= i < |cs| && url in cs[i].entries {
          var i :| 1 <= i < |cs| && url in cs[i].entries;
          assert cs[1..][i - 1] == cs[i];
        }
      }
      assert r.Some? ==> exists i :: 1 <= i < |cs| && url in cs[i].entries && r.value == cs[i].entries[url]
                                   && forall j :: 0 <= j < i ==> url !in cs[j].entries by {
        if r.Some? {
          var i :| 0 <= i < |cs[1..]| && url in cs[1..][i].entries && r.value == cs[1..][i].entries[url]
                   && forall j :: 0 <= j < i ==> url !in cs[1..][j].entries;
          assert cs[i + 1] == cs[1..][i];
          forall j | 0 <= j < i + 1 ensures url !in cs[j].entries {
            if j > 0 { assert cs[j] == cs[1..][j - 1]; }
          }
        }
      }
      r
  }

  /**
   * `caches.match(request)`: searches every cache in order and answers with the first
   * stored response for the URL; only GET requests can match.
   */
  function MatchAll(cs: seq<NamedCache>, req: Request): (r: Option<Response>)
    ensures r.Some? <==> req.verb == "GET" && exists i :: 0 <= i < |cs| && req.url in cs[i].entries
    ensures r.Some? ==> exists i :: 0 <= i < |cs| && req.url in cs[i].entries && r.value == cs[i].entries[req.url]
                                       && forall j :: 0 <= j < i ==> req.url !in cs[j].entries
  {
    if req.verb != "GET" then None else FirstHit(cs, req.url)
  }

  /** A cache appended after the others is consulted only when none of them holds the URL. */
  lemma {:induction false} FirstHitAppend(cs: seq<NamedCache>, c: NamedCache, url: Url)
    ensures FirstHit(cs + [c], url) ==
      if FirstHit(cs, url).Some? then FirstHit(cs, url) else Lookup(c.entries, url)
  {
    if cs == [] {
      assert cs + [c] == [c];
      assert [c][1..] == [];
    } else {
      assert (cs + [c])[1..] == cs[1..] + [c];
      FirstHitAppend(cs[1..], c, url);
    }
  }

  /** In a storage with a single cache, a match is a lookup in that cache. */
  lemma FirstHitSingle(c: NamedCache, url: Url)
    ensures FirstHit([c], url) == Lookup(c.entries, url)
  {
    assert [c][1..] == [];
  }

  /** The cache storage of one origin, updated in place by `open`, `addAll` and `delete`. */
  class CacheStorage {
    var caches: seq<NamedCache>

    ghost predicate Valid()
      reads this
    {
      DistinctNames(caches)
    }

    constructor (initial: seq<NamedCache>)
      requires DistinctNames(initial)
      ensures Valid() && caches == initial
    {
      caches := initial;
    }

    method Keys() returns (names: seq<string>)
      ensures names == Names(caches)
    {
      names := Names(caches);
    }

    method Open(name: string)
      requires Valid()
      modifies this
      ensures Valid()
      ensures caches == Opened(old(caches), name)
    {
      OpenedDistinct(caches, name);
      caches := Opened(caches, name);
    }

    /** `cache.addAll(urls)` on the cache called `name`: every entry is written, or none is. */
    method AddAll(name: string, urls: seq<Url>, net: Network) returns (ok: bool)
      requires Valid()
      modifies this
      ensures Valid()
      ensures ok <==> AddAllSucceeds(urls, net)
      ensures caches == if ok then Stored(old(caches), name, Batch(urls, net)) else old(caches)
    {
      ok := AddAllSucceeds(urls, net);
      if ok {
        var entries := Batch(urls, net);
        StoredDistinct(caches, name, entries);
        caches := Stored(caches, name, entries);
      }
    }

    /** `caches.delete(name)`: reports whether such a cache existed, and removes it. */
    method Delete(name: string) returns (found: bool)
      requires Valid()
      modifies this
      ensures Valid()
      ensures found <==> name in Names(old(caches))
      ensures caches == Drop(old(caches), {name})
    {
      found := name in Names(caches);
      DropDistinct(caches, {name});
      caches := Drop(caches, {name});
    }
  }
}
