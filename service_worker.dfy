/**
 * public/sw.js: the service worker's cache names, the clean-up on activation, and
 * the answer it gives each fetch (network first for the API, cache first for
 * images, network first with a cache and offline fallback for the rest). The
 * network's reply is an argument; `caches` is the `CacheStorage` class.
 */
module ServiceWorker {
  import opened Common

  const CacheName: string := "do-you-remember-cache-v1"
  const RuntimeCacheName: string := "do-you-remember-runtime-v1"
  /** The prefix that marks a cache as this app's. */
  const CachePrefix: string := "do-you-remember-"
  const PrecacheUrls: seq<string> :=
    ["/", "/index.html", "/manifest.json", "/favicon.ico", "/icons/icon-192x192.png", "/icons/icon-512x512.png"]
  /** The page the fallback looks up for a document. */
  const OfflinePage: string := "/offline.html"
  /** `new Response('Network error', { status: 408 })`. */
  const Timeout: Response := Response(408, "Network error")

  datatype Destination = Document | ImageDestination | OtherDestination
  datatype Request = Request(url: string, destination: Destination)
  datatype Response = Response(status: int, body: string)

  /** `response.ok`. */
  predicate IsOk(r: Response) {
    200 <= r.status <= 299
  }

  // ------------------------------------------------------------------ activate

  /** A cache of this app under a name the current version does not use. */
  predicate IsStale(name: string) {
    StartsWith(name, CachePrefix) && name != CacheName && name != RuntimeCacheName
  }

  /** The caches `activate` deletes: neither current cache, and no cache of another app. */
  function StaleCaches(names: seq<string>): (r: seq<string>)
    ensures forall i :: 0 <= i < |r| ==> r[i] in names && IsStale(r[i])
    ensures forall i :: 0 <= i < |names| && IsStale(names[i]) ==> names[i] in r
    ensures CacheName !in r && RuntimeCacheName !in r
    ensures forall i :: 0 <= i < |r| ==> StartsWith(r[i], CachePrefix)
  {
    Filter(names, IsStale)
  }

  /** The old version's names are stale, and both current names start with the prefix they are checked against. */
  lemma {:induction false} StaleExamples()
    ensures IsStale("do-you-remember-cache-v0")
    ensures StartsWith(CacheName, CachePrefix) && StartsWith(RuntimeCacheName, CachePrefix)
    ensures !IsStale("next-data")
  {
    assert CachePrefix <= "do-you-remember-cache-v0";
    assert CachePrefix <= CacheName && CachePrefix <= RuntimeCacheName;
    assert "next-data"[0] != CachePrefix[0];
  }

  // --------------------------------------------------------------------- fetch

  datatype Strategy = ApiNetworkFirst | ImageCacheFirst | NetworkFirst

  /** The branch a request takes: `/api/` anywhere in the URL wins over an image destination. */
  function StrategyOf(req: Request): (s: Strategy)
    ensures s == ApiNetworkFirst <==> IsSubstring("/api/", req.url)
    ensures s == ImageCacheFirst <==> !IsSubstring("/api/", req.url) && req.destination == ImageDestination
  {
    if IsSubstring("/api/", req.url) then ApiNetworkFirst
    else if req.destination == ImageDestination then ImageCacheFirst
    else NetworkFirst
  }

  /**
   * What a fetch event does: the answer `respondWith` settles on (`None` when the
   * page gets a network error: a rejection, or `undefined` from a failed lookup)
   * and whether the network's response is put into the runtime cache.
   */
  datatype Handled = Handled(answer: Option<Response>, store: bool)

  /**
   * The fetch handler as written. `network` is the reply (`None` when `fetch`
   * rejects), `cached` is `caches.match(request)` and `offline` is
   * `caches.match('/offline.html')`.
   */
  function HandleAsWritten(req: Request, network: Option<Response>, cached: Option<Response>, offline: Option<Response>): (h: Handled)
    ensures h.store ==> network.Some? && h.answer == network
    ensures StrategyOf(req) == ImageCacheFirst && cached.Some? ==> h == Handled(cached, false)
    ensures StrategyOf(req) == ImageCacheFirst && cached.None? ==> h == Handled(network, network.Some?)
    ensures StrategyOf(req) == ApiNetworkFirst && network.Some? ==> h == Handled(network, true)
    ensures StrategyOf(req) == NetworkFirst && h.store ==> IsOk(network.value) && req.destination != Document
    ensures network.None? && StrategyOf(req) != ImageCacheFirst ==>
      !h.store && h.answer == (if cached.Some? || StrategyOf(req) == ApiNetworkFirst then cached else if req.destination == Document then offline else Some(Timeout))
    ensures StrategyOf(req) == NetworkFirst && req.destination == Document ==>
      !h.store && h.answer == (if cached.Some? then cached else offline)
    ensures StrategyOf(req) == NetworkFirst && req.destination != Document && network.Some? ==>
      h == (if IsOk(network.value) then Handled(network, true)
            else Handled(if cached.Some? then cached else Some(Timeout), false))
  {
    match StrategyOf(req)
    case ApiNetworkFirst =>
      if network.Some? then Handled(network, true) else Handled(cached, false)
    case ImageCacheFirst =>
      if cached.Some? then Handled(cached, false)
      else if network.Some? then Handled(network, true)
      else Handled(None, false)
    case NetworkFirst =>
      if network.Some? && IsOk(network.value) && req.destination != Document then Handled(network, true)
      else if cached.Some? then Handled(cached, false)
      else if req.destination == Document then Handled(offline, false)
      else Handled(Some(Timeout), false)
  }

  /**
   * As written, a document's network reply is thrown away: whatever the network
   * answers, the page gets what it would get offline.
   */
  lemma {:induction false} DocumentIgnoresNetwork(req: Request, network: Option<Response>, cached: Option<Response>, offline: Option<Response>)
    requires StrategyOf(req) == NetworkFirst && req.destination == Document
    ensures HandleAsWritten(req, network, cached, offline) == HandleAsWritten(req, None, cached, offline)
  {
  }

  /** "/albums" has no 'p', so it is not an API URL. */
  lemma NotApi()
    ensures StrategyOf(Request("/albums", Document)) == NetworkFirst
  {
    assert "/api/"[2] == 'p';
    if IsSubstring("/api/", "/albums") {
      SubstringHasChars("/api/", "/albums", 'p');
    }
  }

  /**
   * So with a healthy network a page that was never cached cannot be opened:
   * "/offline.html" is not precached, the lookup of it finds nothing, and the
   * navigation fails.
   */
  lemma {:induction false} OnlineDocumentFails()
    ensures OfflinePage !in PrecacheUrls
    ensures HandleAsWritten(Request("/albums", Document), Some(Response(200, "<html>")), None, None).answer.None?
  {
    NotApi();
  }

  /**
   * The fetch handler as its comments describe it: the rest is network first,
   * and HTML always comes from the network, so an ok document reply is the
   * answer and is not cached. Every other case is as written.
   */
  function HandleIntended(req: Request, network: Option<Response>, cached: Option<Response>, offline: Option<Response>): (h: Handled)
    ensures h.store ==> network.Some? && h.answer == network
    ensures StrategyOf(req) == NetworkFirst && req.destination == Document ==> !h.store
    ensures StrategyOf(req) == NetworkFirst && h.store ==> IsOk(network.value)
    ensures StrategyOf(req) == NetworkFirst && network.Some? && IsOk(network.value) ==> h.answer == network
  {
    if StrategyOf(req) == NetworkFirst && req.destination == Document && network.Some? && IsOk(network.value) then
      Handled(network, false)
    else
      HandleAsWritten(req, network, cached, offline)
  }

  /** The correction touches only documents of the last branch that the network answers ok. */
  lemma {:induction false} IntendedDiffersOnlyForOkDocuments(req: Request, network: Option<Response>, cached: Option<Response>, offline: Option<Response>)
    ensures HandleIntended(req, network, cached, offline) != HandleAsWritten(req, network, cached, offline) ==>
      StrategyOf(req) == NetworkFirst && req.destination == Document && network.Some? && IsOk(network.value)
  {
  }

  /** Corrected: the page that failed above opens from the network. */
  lemma {:induction false} OnlineDocumentOpens()
    ensures HandleIntended(Request("/albums", Document), Some(Response(200, "<html>")), None, None).answer == Some(Response(200, "<html>"))
  {
    NotApi();
  }

  /** An API reply is the answer while the network is up and is cached, so the next offline request replays it. */
  lemma {:induction false} ApiNetworkFirstStores(req: Request, r: Response, cached: Option<Response>, offline: Option<Response>)
    requires StrategyOf(req) == ApiNetworkFirst
    ensures HandleIntended(req, Some(r), cached, offline) == Handled(Some(r), true)
    ensures HandleIntended(req, None, Some(r), offline).answer == Some(r)
  {
  }

  // ------------------------------------------------------------ cache storage

  /** The i-th cache holds `url` and no cache created before it does. */
  predicate FirstHolder(names: seq<string>, entries: map<string, map<string, Response>>, url: string, i: int) {
    0 <= i < |names| && names[i] in entries && url in entries[names[i]] &&
    forall j :: 0 <= j < i ==> names[j] !in entries || url !in entries[names[j]]
  }

  /** `caches.match(url)`: the entry of the first cache, in creation order, that has one. */
  function MatchIn(names: seq<string>, entries: map<string, map<string, Response>>, url: string): (r: Option<Response>)
    ensures r.None? <==> forall i :: 0 <= i < |names| ==> names[i] !in entries || url !in entries[names[i]]
    ensures r.Some? ==> exists i :: FirstHolder(names, entries, url, i) && r.value == entries[names[i]][url]
  {
    if names == [] then None
    else if names[0] in entries && url in entries[names[0]] then
      assert FirstHolder(names, entries, url, 0);
      Some(entries[names[0]][url])
    else
      var r := MatchIn(names[1..], entries, url);
      assert forall i :: 1 <= i < |names| ==> names[i] == names[1..][i - 1];
      assert r.Some? ==> exists i :: FirstHolder(names, entries, url, i) && r.value == entries[names[i]][url] by {
        if r.Some? {
          var i :| FirstHolder(names[1..], entries, url, i) && r.value == entries[names[1..][i]][url];
          FirstHolderCons(names, entries, url, i);
        }
      }
      r
  }

  /** Behind a first cache that lacks `url`, the first holder moves up by one. */
  lemma FirstHolderCons(names: seq<string>, entries: map<string, map<string, Response>>, url: string, i: int)
    requires names != [] && (names[0] !in entries || url !in entries[names[0]])
    requires FirstHolder(names[1..], entries, url, i)
    ensures FirstHolder(names, entries, url, i + 1) && names[i + 1] == names[1..][i]
  {
    forall j | 0 <= j < i + 1 ensures names[j] !in entries || url !in entries[names[j]] {
      if j > 0 {
        assert names[j] == names[1..][j - 1];
      }
    }
  }

  /** A URL held by one cache only is answered from that cache. */
  lemma {:induction false} MatchInOnlyHolder(names: seq<string>, entries: map<string, map<string, Response>>, url: string, holder: string)
    requires holder in names && holder in entries && url in entries[holder]
    requires forall n :: n in entries && n != holder ==> url !in entries[n]
    ensures MatchIn(names, entries, url) == Some(entries[holder][url])
  {
    if names[0] != holder {
      MatchInOnlyHolder(names[1..], entries, url, holder);
    }
  }

  /** `cache.addAll(PRECACHE_URLS)`: every URL is stored, or none when one reply is missing or not ok. */
  function AddAll(cache: map<string, Response>, urls: seq<string>, replies: seq<Option<Response>>): (r: map<string, Response>)
    requires |urls| == |replies| && forall i :: 0 <= i < |replies| ==> replies[i].Some?
    ensures forall u :: u in r ==> u in cache || u in urls
    ensures forall u :: u in cache ==> u in r
    ensures forall i :: 0 <= i < |urls| ==> urls[i] in r
    ensures forall u :: u in cache && u !in urls ==> r[u] == cache[u]
  {
    if urls == [] then cache
    else
      var last := |urls| - 1;
      AddAll(cache, urls[..last], replies[..last])[urls[last] := replies[last].value]
  }

  /** With distinct URLs, each URL holds its own reply. */
  lemma {:induction false} AddAllValues(cache: map<string, Response>, urls: seq<string>, replies: seq<Option<Response>>, i: int)
    requires |urls| == |replies| && forall k :: 0 <= k < |replies| ==> replies[k].Some?
    requires NoDuplicates(urls) && 0 <= i < |urls|
    ensures AddAll(cache, urls, replies)[urls[i]] == replies[i].value
  {
    var last := |urls| - 1;
    if i < last {
      var us := urls[..last];
      var rs := replies[..last];
      assert us[i] == urls[i] && rs[i] == replies[i];
      assert urls[i] != urls[last];
      assert forall k :: 0 <= k < |rs| ==> rs[k] == replies[k];
      assert NoDuplicates(us) by {
        assert forall a, b :: 0 <= a < b < |us| ==> us[a] == urls[a] && us[b] == urls[b];
      }
      AddAllValues(cache, us, rs, i);
    }
  }

  /** Every precache reply is present and ok. */
  predicate AllOk(replies: seq<Option<Response>>) {
    forall i :: 0 <= i < |replies| ==> replies[i].Some? && IsOk(replies[i].value)
  }

  class CacheStorage {
    /** The cache names, in creation order. */
    var names: seq<string>
    var entries: map<string, map<string, Response>>

    ghost predicate Valid()
      reads this
    {
      NoDuplicates(names) && forall n :: n in entries <==> n in names
    }

    /** `caches.match(url)` over every open cache. */
    function Match(url: string): (r: Option<Response>)
      reads this
      ensures Valid() ==> (r.None? <==> forall n :: n in entries ==> url !in entries[n])
      ensures Valid() && r.Some? ==> exists n :: n in entries && url in entries[n] && r.value == entries[n][url]
      ensures r.Some? ==> exists i :: FirstHolder(names, entries, url, i) && r.value == entries[names[i]][url]
    {
      var r := MatchIn(names, entries, url);
      assert Valid() && r.None? ==> forall n :: n in entries ==> url !in entries[n] by {
        if Valid() && r.None? {
          forall n | n in entries ensures url !in entries[n] {
            var i :| 0 <= i < |names| && names[i] == n;
          }
        }
      }
      r
    }

    /** No caches yet. */
    constructor()
      ensures Valid() && names == [] && entries == map[]
    {
      names := [];
      entries := map[];
    }

    /** `caches.open(name)`: an unknown name opens an empty cache, created last. */
    method Open(name: string)
      requires Valid()
      modifies this
      ensures Valid() && name in entries
      ensures old(name in entries) ==> names == old(names) && entries == old(entries)
      ensures !old(name in entries) ==> names == old(names) + [name] && entries == old(entries)[name := map[]]
    {
      if name !in entries {
        forall i, j | 0 <= i < j < |names| + 1 ensures (names + [name])[i] != (names + [name])[j] {
          if j == |names| {
            assert names[i] in entries;
          }
        }
        names := names + [name];
        entries := entries[name := map[]];
      }
    }

    /** `install`: the precache is opened and filled when every reply is ok. */
    method Install(replies: seq<Option<Response>>) returns (installed: bool)
      requires Valid() && |replies| == |PrecacheUrls|
      modifies this
      ensures Valid() && CacheName in entries
      ensures installed == AllOk(replies)
      ensures installed ==> entries == old(entries)[CacheName := AddAll(old(if CacheName in entries then entries[CacheName] else map[]), PrecacheUrls, replies)]
      ensures !installed ==> entries == old(entries)[CacheName := old(if CacheName in entries then entries[CacheName] else map[])]
      ensures names == old(names) + (if old(CacheName in entries) then [] else [CacheName])
    {
      Open(CacheName);
      installed := AllOk(replies);
      if installed {
        Fill(CacheName, PrecacheUrls, replies);
      }
    }

    /** `cache.addAll`: the replies are stored under their URLs in an open cache. */
    method Fill(name: string, urls: seq<string>, replies: seq<Option<Response>>)
      requires Valid() && name in entries
      requires |urls| == |replies| && forall i :: 0 <= i < |replies| ==> replies[i].Some?
      modifies this
      ensures Valid() && names == old(names)
      ensures entries == old(entries)[name := AddAll(old(entries[name]), urls, replies)]
    {
      entries := entries[name := AddAll(entries[name], urls, replies)];
    }

    /** `activate`: every stale cache is deleted; the others keep their entries. */
    method Activate()
      requires Valid()
      modifies this
      ensures Valid()
      ensures names == Filter(old(names), (n: string) => !IsStale(n))
      ensures forall n :: n in entries <==> n in old(entries) && !IsStale(n)
      ensures forall n :: n in entries ==> entries[n] == old(entries)[n]
    {
      FilterKeepsNoDuplicates(names, (n: string) => !IsStale(n));
      names := Filter(names, (n: string) => !IsStale(n));
      entries := map n | n in entries && !IsStale(n) :: entries[n];
    }

    /** A fetch event: the answer of the corrected handler, and the runtime cache updated when it stores. */
    method HandleFetch(req: Request, network: Option<Response>) returns (answer: Option<Response>)
      requires Valid()
      modifies this
      ensures Valid()
      ensures var h := HandleIntended(req, network, old(Match(req.url)), old(Match(OfflinePage)));
        answer == h.answer
      ensures var h := HandleIntended(req, network, old(Match(req.url)), old(Match(OfflinePage)));
        !h.store ==> names == old(names) && entries == old(entries)
      ensures var h := HandleIntended(req, network, old(Match(req.url)), old(Match(OfflinePage)));
        h.store ==> RuntimeCacheName in entries && entries == old(entries)[RuntimeCacheName := old(if RuntimeCacheName in entries then entries[RuntimeCacheName] else map[])[req.url := network.value]]
    {
      var h := HandleIntended(req, network, Match(req.url), Match(OfflinePage));
      answer := h.answer;
      if h.store {
        Open(RuntimeCacheName);
        entries := entries[RuntimeCacheName := entries[RuntimeCacheName][req.url := network.value]];
      }
    }
  }

  /**
   * Network first for the API: a reply seen online is what the same request gets
   * offline, as long as no other cache holds that URL.
   */
  method ApiReplayOffline(c: CacheStorage, req: Request, r: Response) returns (online: Option<Response>, offline: Option<Response>)
    requires c.Valid() && StrategyOf(req) == ApiNetworkFirst
    requires forall n :: n in c.entries && n != RuntimeCacheName ==> req.url !in c.entries[n]
    modifies c
    ensures online == Some(r) && offline == Some(r)
  {
    online := c.HandleFetch(req, Some(r));
    MatchInOnlyHolder(c.names, c.entries, req.url, RuntimeCacheName);
    offline := c.HandleFetch(req, None);
  }
}
