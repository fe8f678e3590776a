/**
  The service worker of the task-list client: how its `fetch` handler
  routes a request (API pass-through, cache-first for the app shell,
  network-first for everything else), what it writes into the caches,
  and which caches its `activate` handler deletes.

  The browser's cache storage is a value: an ordered list of named
  caches, each a map from request URL to stored response. The network
  is the parameter `network`, the single outcome of `fetch(request)`.
 */
module ServiceWorker {
  import opened Js
  import opened Seqs
  import opened Text

  const CacheName := "smart-todo-v1"
  const DynamicCacheName := "dynamic-content-v1"

  /** The app shell, cached at install time and served cache-first. */
  const StaticAssets := ["/", "/index.html", "/styles.css", "/app.js", "/manifest.json", "/icons/icon-192.png", "/icons/icon-512.png"]

  /** A request as the handler sees it; `pathname` is the path part of `url`. */
  datatype Request = Request(httpMethod: string, url: string, pathname: string)

  datatype Response = Response(status: int, body: string)

  datatype NamedCache = NamedCache(name: string, entries: map<string, Response>)

  /** The origin's caches in creation order (`caches.keys()` order). */
  type CacheStorage = seq<NamedCache>

  /** What `fetch(request)` does: resolve with a response, or reject on a network failure. */
  datatype NetworkOutcome = Fetched(response: Response) | NetworkFailure

  /** What the page receives: a response, or a network error when the promise given to `respondWith` rejects or yields no response. */
  datatype Reply = Served(response: Response) | NetworkError

  /** The effect of the `fetch` handler: not calling `respondWith` at all, or answering with `reply` and leaving the caches as `storage`. */
  datatype FetchResult = NotIntercepted | RespondWith(reply: Reply, storage: CacheStorage)

  datatype Route = PassThrough | CacheFirst | NetworkFirst

  // ---------------------------------------------------------------------
  // Routing

  /** The paths of the push server's API. */
  const ApiPrefixes := ["/subscribe", "/unsubscribe", "/send-notification"]

  /** A request to the push server's API, recognised by path prefix. */
  predicate IsApiPath(pathname: string)
    ensures IsApiPath(pathname) <==> exists k :: 0 <= k < |ApiPrefixes| && StartsWith(pathname, ApiPrefixes[k])
  {
    assert ApiPrefixes[0] == "/subscribe" && ApiPrefixes[1] == "/unsubscribe" && ApiPrefixes[2] == "/send-notification";
    StartsWith(pathname, "/subscribe") || StartsWith(pathname, "/unsubscribe") || StartsWith(pathname, "/send-notification")
  }

  /** The route the `fetch` handler takes for a path: the API test first, then the exact app-shell test. */
  function Classify(pathname: string): (r: Route)
    ensures r == PassThrough <==> IsApiPath(pathname)
    ensures r == CacheFirst <==> !IsApiPath(pathname) && pathname in StaticAssets
    ensures r == NetworkFirst <==> !IsApiPath(pathname) && pathname !in StaticAssets
  {
    if IsApiPath(pathname) then PassThrough
    else if pathname in StaticAssets then CacheFirst
    else NetworkFirst
  }

  /** The API test is a prefix test: any extension of an API path passes through too. */
  lemma ApiPrefixPassesThrough(suffix: string)
    ensures Classify("/subscribe" + suffix) == PassThrough
    ensures Classify("/unsubscribe" + suffix) == PassThrough
    ensures Classify("/send-notification" + suffix) == PassThrough
  {
    assert ("/subscribe" + suffix)[..|"/subscribe"|] == "/subscribe";
    assert ("/unsubscribe" + suffix)[..|"/unsubscribe"|] == "/unsubscribe";
    assert ("/send-notification" + suffix)[..|"/send-notification"|] == "/send-notification";
  }

  /** No app-shell path looks like an API path, so every one of them is served cache-first. */
  lemma StaticAssetsAreCacheFirst(pathname: string)
    requires pathname in StaticAssets
    ensures Classify(pathname) == CacheFirst
  {
    var i :| 0 <= i < |StaticAssets| && StaticAssets[i] == pathname;
    assert !StartsWith(pathname, "/subscribe") && !StartsWith(pathname, "/unsubscribe") && !StartsWith(pathname, "/send-notification") by {
      if i == 0 {
      } else if i == 1 {
        assert pathname[1] == 'i';
      } else if i == 2 {
        assert pathname[1] == 's' && pathname[2] == 't';
      } else if i == 3 {
        assert pathname[1] == 'a';
      } else if i == 4 {
        assert pathname[1] == 'm';
      } else {
        assert pathname[1] == 'i';
      }
    }
  }

  // ---------------------------------------------------------------------
  // Cache storage

  /** The names of the caches, in order. */
  function Names(storage: CacheStorage): (r: seq<string>)
    ensures |r| == |storage|
    ensures forall i :: 0 <= i < |storage| ==> r[i] == storage[i].name
  {
    Map(storage, CacheNameOf)
  }

  function CacheNameOf(c: NamedCache): string { c.name }

  /** Cache names are keys of the cache storage: no two caches share one. */
  ghost predicate UniqueNames(storage: CacheStorage) {
    DistinctKeys(storage, CacheNameOf)
  }

  /** The response stored for `url` in the cache called `name`. */
  function Lookup(storage: CacheStorage, name: string, url: string): (r: Option<Response>)
    ensures r.Some? ==> exists i :: 0 <= i < |storage| && storage[i].name == name && url in storage[i].entries && storage[i].entries[url] == r.value
    ensures name !in Names(storage) ==> r == None
  {
    if |storage| == 0 then None
    else if storage[0].name == name then
      (if url in storage[0].entries then Some(storage[0].entries[url]) else None)
    else
      assert Names(storage)[1..] == Names(storage[1..]);
      Lookup(storage[1..], name, url)
  }

  /**
    The first cache called `name` answers a lookup: it finds the response
    stored there for `url`, and nothing when that cache has no entry for it.
   */
  lemma {:induction false} LookupFirstNamed(storage: CacheStorage, name: string, url: string, i: nat)
    requires i < |storage| && storage[i].name == name
    requires forall j :: 0 <= j < i ==> storage[j].name != name
    ensures Lookup(storage, name, url) == if url in storage[i].entries then Some(storage[i].entries[url]) else None
    decreases i
  {
    if i > 0 {
      LookupFirstNamed(storage[1..], name, url, i - 1);
    }
  }

  /** With unique names, the one cache called `name` answers every lookup. */
  lemma LookupUniqueNamed(storage: CacheStorage, name: string, url: string, i: nat)
    requires UniqueNames(storage)
    requires i < |storage| && storage[i].name == name
    ensures Lookup(storage, name, url) == if url in storage[i].entries then Some(storage[i].entries[url]) else None
  {
    forall j | 0 <= j < i
      ensures storage[j].name != name
    {
      assert CacheNameOf(storage[j]) != CacheNameOf(storage[i]);
    }
    LookupFirstNamed(storage, name, url, i);
  }

  /**
    `caches.match(request)`: the response for the request's URL in the
    first cache that has one. A request whose method is not GET matches
    nothing.
   */
  function Match(storage: CacheStorage, request: Request): (r: Option<Response>)
    ensures request.httpMethod != "GET" ==> r == None
    ensures r.Some? ==> exists i :: (0 <= i < |storage| && request.url in storage[i].entries && storage[i].entries[request.url] == r.value
      && forall j :: 0 <= j < i ==> request.url !in storage[j].entries)
    ensures r.None? && request.httpMethod == "GET" ==> forall i :: 0 <= i < |storage| ==> request.url !in storage[i].entries
    decreases |storage|
  {
    if request.httpMethod != "GET" || |storage| == 0 then None
    else if request.url in storage[0].entries then Some(storage[0].entries[request.url])
    else
      var r := Match(storage[1..], request);
      assert forall i :: 1 <= i < |storage| ==> storage[i] == storage[1..][i - 1];
      assert r.Some? ==> exists i :: (1 <= i < |storage| && request.url in storage[i].entries && storage[i].entries[request.url] == r.value
        && forall j :: 0 <= j < i ==> request.url !in storage[j].entries) by {
        if r.Some? {
          var i :| (0 <= i < |storage[1..]| && request.url in storage[1..][i].entries && storage[1..][i].entries[request.url] == r.value
            && forall j :: 0 <= j < i ==> request.url !in storage[1..][j].entries);
          assert forall j :: 0 <= j < i + 1 ==> request.url !in storage[j].entries by {
            assert forall j :: 1 <= j < i + 1 ==> storage[j] == storage[1..][j - 1];
          }
        }
      }
      r
  }

  /** The names after `caches.open(name)`: unchanged when the cache exists, and `name` appended at the end when it does not. */
  function OpenedNames(storage: CacheStorage, name: string): seq<string> {
    if name in Names(storage) then Names(storage) else Names(storage) + [name]
  }

  /** `caches.open(name)`: the caches, with an empty cache called `name` created at the end if there is none. */
  function Open(storage: CacheStorage, name: string): (r: CacheStorage)
    ensures Names(r) == OpenedNames(storage, name)
    ensures forall n, u :: Lookup(r, n, u) == Lookup(storage, n, u)
  {
    if name in Names(storage) then storage
    else
      var r := storage + [NamedCache(name, map[])];
      assert Names(r) == Names(storage) + [name] by {
        assert forall i :: 0 <= i < |storage| ==> r[i] == storage[i];
      }
      forall n, u
        ensures Lookup(r, n, u) == Lookup(storage, n, u)
      {
        LookupAppendEmpty(storage, name, n, u);
      }
      r
  }

  /** A new empty cache at the end holds nothing under any name. */
  lemma {:induction false} LookupAppendEmpty(storage: CacheStorage, name: string, n: string, u: string)
    ensures Lookup(storage + [NamedCache(name, map[])], n, u) == Lookup(storage, n, u)
    decreases |storage|
  {
    if |storage| > 0 {
      assert (storage + [NamedCache(name, map[])])[1..] == storage[1..] + [NamedCache(name, map[])];
      LookupAppendEmpty(storage[1..], name, n, u);
    }
  }

  /**
    `caches.open(name)` followed by `cache.put(request, response)`.
    The cache is opened (created if missing) whatever the request; `put`
    then rejects a request that is not a GET without writing anything.
   */
  function Put(storage: CacheStorage, name: string, request: Request, response: Response): (r: CacheStorage)
    ensures Names(r) == OpenedNames(storage, name)
  {
    if request.httpMethod != "GET" then Open(storage, name) else Store(storage, name, request.url, response)
  }

  /** Storing into the first cache called `name`, which is created at the end if there is none. */
  function Store(storage: CacheStorage, name: string, url: string, response: Response): (r: CacheStorage)
    ensures Names(r) == OpenedNames(storage, name)
    decreases |storage|
  {
    if |storage| == 0 then
      [NamedCache(name, map[url := response])]
    else if storage[0].name == name then
      var r := [storage[0].(entries := storage[0].entries[url := response])] + storage[1..];
      assert Names(r) == Names(storage) by {
        assert forall i :: 1 <= i < |r| ==> r[i] == storage[i];
      }
      assert Names(storage)[0] == name;
      r
    else
      var rest := Store(storage[1..], name, url, response);
      var r := [storage[0]] + rest;
      assert Names(storage) == [storage[0].name] + Names(storage[1..]);
      assert name in Names(storage) <==> name in Names(storage[1..]);
      assert Names(r) == [storage[0].name] + Names(rest) by {
        assert forall i :: 1 <= i < |r| ==> r[i] == rest[i - 1];
      }
      r
  }

  /** After storing, the stored key looks up the new response and every other key of every cache looks up what it did before. */
  lemma {:induction false} StoreLookup(storage: CacheStorage, name: string, url: string, response: Response, n: string, u: string)
    ensures Lookup(Store(storage, name, url, response), n, u) == if n == name && u == url then Some(response) else Lookup(storage, n, u)
    decreases |storage|
  {
    if |storage| > 0 && storage[0].name != name {
      StoreLookup(storage[1..], name, url, response, n, u);
      var r := Store(storage, name, url, response);
      assert r[1..] == Store(storage[1..], name, url, response);
    }
  }

  /** `Put` writes exactly one entry: the request's URL in the cache called `name`, and only for a GET. */
  lemma PutLookup(storage: CacheStorage, name: string, request: Request, response: Response, n: string, u: string)
    ensures Lookup(Put(storage, name, request, response), n, u) ==
      if request.httpMethod == "GET" && n == name && u == request.url then Some(response) else Lookup(storage, n, u)
  {
    if request.httpMethod == "GET" {
      StoreLookup(storage, name, request.url, response, n, u);
    }
  }

  /** Opening by name never creates a second cache with an existing name. */
  lemma OpenPreservesUniqueNames(storage: CacheStorage, name: string)
    requires UniqueNames(storage)
    ensures UniqueNames(Open(storage, name))
  {
    var r := Open(storage, name);
    if name !in Names(storage) {
      forall i | 0 <= i < |storage|
        ensures CacheNameOf(r[i]) != CacheNameOf(r[|storage|])
      {
        assert r[i] == storage[i] && Names(storage)[i] == storage[i].name;
      }
    }
  }

  /** Storing keeps cache names unique. */
  lemma {:induction false} StorePreservesUniqueNames(storage: CacheStorage, name: string, url: string, response: Response)
    requires UniqueNames(storage)
    ensures UniqueNames(Store(storage, name, url, response))
    decreases |storage|
  {
    var r := Store(storage, name, url, response);
    if |storage| > 0 && storage[0].name != name {
      StorePreservesUniqueNames(storage[1..], name, url, response);
      var rest := Store(storage[1..], name, url, response);
      assert Names(storage) == [storage[0].name] + Names(storage[1..]);
      forall j | 1 <= j < |r|
        ensures storage[0].name != r[j].name
      {
        assert r[j].name == Names(rest)[j - 1];
      }
    }
  }

  // ---------------------------------------------------------------------
  // The fetch handler

  /** The `fetch` handler for `request`, given the caches and what the network would do. */
  function HandleFetch(storage: CacheStorage, request: Request, network: NetworkOutcome): (r: FetchResult)
    ensures r.NotIntercepted? <==> IsApiPath(request.pathname)
    ensures r.RespondWith? && r.storage != storage ==> Classify(request.pathname) == NetworkFirst && network.Fetched? && network.response.status == 200
  {
    match Classify(request.pathname)
    case PassThrough => NotIntercepted
    case CacheFirst =>
      (match Match(storage, request)
       case Some(cached) => RespondWith(Served(cached), storage)
       case None =>
         (match network
          case Fetched(response) => RespondWith(Served(response), storage)
          case NetworkFailure => RespondWith(NetworkError, storage)))
    case NetworkFirst =>
      (match network
       case Fetched(response) =>
         RespondWith(Served(response), if response.status == 200 then Put(storage, DynamicCacheName, request, response) else storage)
       case NetworkFailure =>
         (match Match(storage, request)
          case Some(cached) => RespondWith(Served(cached), storage)
          case None => RespondWith(NetworkError, storage)))
  }

  /** An app-shell request is answered from the caches when they hold it, and from the network otherwise; nothing is written. */
  lemma CacheFirstPolicy(storage: CacheStorage, request: Request, network: NetworkOutcome)
    requires Classify(request.pathname) == CacheFirst
    ensures var r := HandleFetch(storage, request, network);
      && r.RespondWith?
      && r.storage == storage
      && (Match(storage, request).Some? ==> r.reply == Served(Match(storage, request).value))
      && (Match(storage, request).None? && network.Fetched? ==> r.reply == Served(network.response))
      && (Match(storage, request).None? && network.NetworkFailure? ==> r.reply == NetworkError)
  {
  }

  /**
    A network-first request that reaches the network is answered with
    the network's response whatever its status. A status other than 200
    leaves the caches alone. A status of 200 opens the dynamic cache,
    creating it if missing, and stores the response under the request's
    URL when the request is a GET (`put` rejects any other method). No
    other entry of any cache changes.
   */
  lemma NetworkFirstWrites(storage: CacheStorage, request: Request, response: Response)
    requires Classify(request.pathname) == NetworkFirst
    ensures var r := HandleFetch(storage, request, Fetched(response));
      && r.RespondWith?
      && r.reply == Served(response)
      && (response.status != 200 ==> r.storage == storage)
      && (response.status == 200 ==> Names(r.storage) == OpenedNames(storage, DynamicCacheName))
      && (forall n, u :: Lookup(r.storage, n, u) ==
            if response.status == 200 && request.httpMethod == "GET" && n == DynamicCacheName && u == request.url
            then Some(response) else Lookup(storage, n, u))
  {
    var r := HandleFetch(storage, request, Fetched(response));
    forall n, u
      ensures Lookup(r.storage, n, u) == if response.status == 200 && request.httpMethod == "GET" && n == DynamicCacheName && u == request.url then Some(response) else Lookup(storage, n, u)
    {
      PutLookup(storage, DynamicCacheName, request, response, n, u);
    }
  }

  /** A POST answered with 200 stores nothing, yet `caches.open` has already created the dynamic cache. */
  lemma NonGetOpensDynamicCache()
    ensures var r := HandleFetch([NamedCache(CacheName, map[])], Request("POST", "https://app.example/api/x", "/api/x"), Fetched(Response(200, "ok")));
      && r.RespondWith?
      && Names(r.storage) == [CacheName, DynamicCacheName]
      && Lookup(r.storage, DynamicCacheName, "https://app.example/api/x") == None
  {
    var storage := [NamedCache(CacheName, map[])];
    assert !IsApiPath("/api/x") by {
      assert "/api/x"[1] == 'a';
    }
    assert Names(storage) == [CacheName];
    assert DynamicCacheName !in Names(storage);
  }

  /** A network-first request whose fetch fails is answered from the caches, or with a network error when they have nothing. */
  lemma NetworkFirstFallsBack(storage: CacheStorage, request: Request)
    requires Classify(request.pathname) == NetworkFirst
    ensures var r := HandleFetch(storage, request, NetworkFailure);
      && r.RespondWith?
      && r.storage == storage
      && r.reply == (if Match(storage, request).Some? then Served(Match(storage, request).value) else NetworkError)
  {
  }

  /** The handler keeps cache names unique. */
  lemma HandleFetchPreservesUniqueNames(storage: CacheStorage, request: Request, network: NetworkOutcome)
    requires UniqueNames(storage)
    ensures HandleFetch(storage, request, network).RespondWith? ==> UniqueNames(HandleFetch(storage, request, network).storage)
  {
    if Classify(request.pathname) == NetworkFirst && network.Fetched? && network.response.status == 200 {
      if request.httpMethod == "GET" {
        StorePreservesUniqueNames(storage, DynamicCacheName, request.url, network.response);
      } else {
        OpenPreservesUniqueNames(storage, DynamicCacheName);
      }
    }
  }

  // ---------------------------------------------------------------------
  // The activate handler

  /** A cache the current version of the worker uses. */
  predicate IsCurrent(c: NamedCache)
    ensures IsCurrent(c) <==> c.name in {CacheName, DynamicCacheName}
  {
    c.name == CacheName || c.name == DynamicCacheName
  }

  /** The `activate` handler: every cache whose name is neither of the two current ones is deleted. */
  function Activate(storage: CacheStorage): (r: CacheStorage)
    ensures forall c :: c in r <==> c in storage && (c.name == CacheName || c.name == DynamicCacheName)
    ensures forall i :: 0 <= i < |r| ==> r[i].name == CacheName || r[i].name == DynamicCacheName
    ensures IsSubsequence(r, storage)
    ensures forall c :: multiset(r)[c] == if IsCurrent(c) then multiset(storage)[c] else 0
  {
    FilterMembers(storage, IsCurrent);
    FilterIsSubsequence(storage, IsCurrent);
    Filter(storage, IsCurrent)
  }

  /** After activation only the two current names remain, and their contents are untouched. */
  lemma ActivateKeepsCurrentContents(storage: CacheStorage, name: string, url: string)
    ensures name != CacheName && name != DynamicCacheName ==> Lookup(Activate(storage), name, url) == None
    ensures name == CacheName || name == DynamicCacheName ==> Lookup(Activate(storage), name, url) == Lookup(storage, name, url)
  {
    ActivateLookup(storage, name, url);
  }

  lemma {:induction false} ActivateLookup(storage: CacheStorage, name: string, url: string)
    ensures Lookup(Filter(storage, IsCurrent), name, url) == if name == CacheName || name == DynamicCacheName then Lookup(storage, name, url) else None
    decreases |storage|
  {
    if |storage| > 0 {
      ActivateLookup(storage[1..], name, url);
    } else {
      assert Names(storage) == [];
    }
  }

  /** Activation keeps cache names unique. */
  lemma ActivatePreservesUniqueNames(storage: CacheStorage)
    requires UniqueNames(storage)
    ensures UniqueNames(Activate(storage))
  {
    var r := Activate(storage);
    SubsequenceKeepsDistinctKeys(r, storage, CacheNameOf);
  }

}
