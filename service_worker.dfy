/** The caching policy of the recipe site's service worker: the `install`,
    `activate` and `fetch` listeners, over the CacheStorage of `CacheApi` and a
    network given as a parameter. Each listener is a method on the shared
    `CacheStorage` object, proved against a function that states its effect;
    the lemmas at the end relate several events. */
module ServiceWorker {
  import opened Fetch
  import opened CacheApi

  /** The one cache generation this version of the worker writes to. */
  const CacheName: string := "filipino-recipes-v3.0.0"

  /** The app shell cached at install time. */
  const UrlsToCache: seq<string> := [
    "./",
    "./index.html",
    "./styles.css",
    "./script.js",
    "./manifest.json",
    "./icons/icon-192x192.png",
    "./icons/icon-512x512.png"
  ]

  /** The cached page served to a navigation when the network fails. */
  const OfflinePage: string := "./index.html"

  const ExtensionScheme: string := "chrome-extension://"

  /** The placeholder served to any other request when the network fails. */
  const OfflineResponse: Response :=
    Response(503, "Service Unavailable", Default, [("Content-Type", "text/plain")], "Offline")

  lemma UrlsToCacheDistinct()
    ensures Distinct(UrlsToCache)
  {
  }

  /** The current store, or the empty store `caches.open` would create. */
  function CurrentStore(c: Caches): Store
  {
    if CacheName in c.stores then c.stores[CacheName] else map[]
  }

  // ---------------------------------------------------------------- install

  datatype InstallResult = InstallResult(caches: Caches, skipWaiting: bool)

  /** The `install` listener: open the current store, `addAll` the app shell,
      and request `skipWaiting` only if that succeeded. A failed `addAll` is
      caught, so install itself never fails; the store it opened stays. */
  function Install(c: Caches, net: Network): (r: InstallResult)
    requires WellFormed(c)
    ensures WellFormed(r.caches)
    ensures r.skipWaiting <==> forall i :: 0 <= i < |UrlsToCache| ==> Accepted(net(GetRequest(UrlsToCache[i])))
    ensures r.caches.names == if CacheName in c.stores then c.names else c.names + [CacheName]
    ensures forall n :: n in r.caches.stores <==> n in c.stores || n == CacheName
    ensures forall n :: n in c.stores && n != CacheName ==> r.caches.stores[n] == c.stores[n]
    ensures r.skipWaiting ==> forall i :: 0 <= i < |UrlsToCache| ==>
      UrlsToCache[i] in r.caches.stores[CacheName] &&
      net(GetRequest(UrlsToCache[i])) == Resolved(Some(r.caches.stores[CacheName][UrlsToCache[i]]))
    ensures r.skipWaiting ==> forall k :: k in r.caches.stores[CacheName] <==> k in CurrentStore(c) || k in UrlsToCache
    ensures r.skipWaiting ==> forall k :: k in CurrentStore(c) && k !in UrlsToCache ==>
      r.caches.stores[CacheName][k] == CurrentStore(c)[k]
    ensures !r.skipWaiting ==> r.caches.stores[CacheName] == CurrentStore(c)
  {
    var open := Opened(c, CacheName);
    UrlsToCacheDistinct();
    match AddedAll(open, CacheName, UrlsToCache, net)
    case Some(added) => InstallResult(added, true)
    case None => InstallResult(open, false)
  }

  method OnInstall(storage: CacheStorage, net: Network) returns (skipWaiting: bool)
    requires storage.Valid()
    modifies storage
    ensures storage.Valid()
    ensures InstallResult(storage.Value(), skipWaiting) == Install(old(storage.Value()), net)
  {
    storage.Open(CacheName);
    skipWaiting := storage.AddAll(CacheName, UrlsToCache, net);
  }

  // --------------------------------------------------------------- activate

  /** The loop of the `activate` listener over the listed store names: each
      one other than the current generation is deleted, in order. */
  function DeleteStale(c: Caches, cacheNames: seq<string>): (r: Caches)
    requires WellFormed(c)
    ensures WellFormed(r)
    ensures forall n :: n in r.stores <==> n in c.stores && (n == CacheName || n !in cacheNames)
    ensures forall n :: n in r.stores ==> r.stores[n] == c.stores[n]
    decreases |cacheNames|
  {
    if cacheNames == [] then c
    else
      assert forall n :: n in cacheNames <==> n == cacheNames[0] || n in cacheNames[1..];
      DeleteStale(if cacheNames[0] != CacheName then Deleted(c, cacheNames[0]) else c, cacheNames[1..])
  }

  /** The first two names of a list, when there are that many. */
  lemma LeadingNames(s: seq<string>)
    ensures |s| > 0 ==> s[0] in s
    ensures |s| > 1 ==> s[1] in s && (Distinct(s) ==> s[0] != s[1])
  {
  }

  /** A well-formed CacheStorage with no store but the current one lists at
      most that one. */
  lemma OnlyCurrentListed(c: Caches)
    requires WellFormed(c)
    requires forall n :: n in c.stores ==> n == CacheName
    ensures c.names == if CacheName in c.stores then [CacheName] else []
  {
    LeadingNames(c.names);
    assert |c.names| <= 1;
    assert CacheName in c.stores ==> CacheName in c.names;
  }

  /** The `activate` listener: only the current generation survives, with its
      contents. */
  function Activate(c: Caches): (r: Caches)
    requires WellFormed(c)
    ensures WellFormed(r)
    ensures r.names == if CacheName in c.stores then [CacheName] else []
    ensures forall n :: n in r.stores <==> n == CacheName && n in c.stores
    ensures CacheName in c.stores ==> r.stores[CacheName] == c.stores[CacheName]
  {
    var r := DeleteStale(c, c.names);
    OnlyCurrentListed(r);
    r
  }

  method OnActivate(storage: CacheStorage)
    requires storage.Valid()
    modifies storage
    ensures storage.Valid() && storage.Value() == Activate(old(storage.Value()))
  {
    var cacheNames := storage.names;
    ghost var before := storage.Value();
    for i := 0 to |cacheNames|
      invariant storage.Valid()
      invariant DeleteStale(storage.Value(), cacheNames[i..]) == DeleteStale(before, cacheNames)
    {
      assert cacheNames[i..][1..] == cacheNames[i + 1..];
      if cacheNames[i] != CacheName {
        var _ := storage.Delete(cacheNames[i]);
      }
    }
    assert cacheNames[|cacheNames|..] == [];
  }

  // ------------------------------------------------------------------ fetch

  /** What the `fetch` listener does with the event: nothing (the browser
      fetches the request itself), or `respondWith` a value that may be
      absent. */
  datatype Handling = NotIntercepted | RespondWith(response: Option<Response>)

  /** The handling of one request, whether the network was asked, and the
      CacheStorage afterwards. */
  datatype FetchStep = FetchStep(handling: Handling, usedNetwork: bool, after: Caches)

  /** The worker handles GET requests except those of browser extensions. */
  predicate Intercepts(req: Request)
  {
    req.httpMethod == "GET" && !(ExtensionScheme <= req.url)
  }

  /** A network answer worth caching: present, status 200, type `basic`. */
  predicate Cacheable(answer: Option<Response>)
  {
    answer.Some? && answer.value.status == 200 && answer.value.responseType == Basic
  }

  /** The `fetch` listener: cache first, then the network (caching a good
      same-origin answer in the current store), then an offline fallback. */
  function HandleFetch(req: Request, c: Caches, net: Network): (s: FetchStep)
    requires WellFormed(c)
    ensures WellFormed(s.after)
    // not intercepted: nothing read, nothing written, no network
    ensures s.handling == NotIntercepted <==> !Intercepts(req)
    ensures !Intercepts(req) ==> !s.usedNetwork && s.after == c
    // cache hit: the stored response, no network, nothing written
    ensures Intercepts(req) && Lookup(c, req.url).Some? ==>
      s.handling == RespondWith(Lookup(c, req.url)) && !s.usedNetwork && s.after == c
    // cache miss: the network is asked
    ensures Intercepts(req) && Lookup(c, req.url).None? ==> s.usedNetwork
    // the network answered: the answer is passed on as it is
    ensures Intercepts(req) && Lookup(c, req.url).None? && net(req).Resolved? ==>
      s.handling == RespondWith(net(req).value)
    // ... and only a cacheable answer is written, to the current store only
    ensures Intercepts(req) && Lookup(c, req.url).None? && net(req).Resolved? && !Cacheable(net(req).value) ==>
      s.after == c
    ensures Intercepts(req) && Lookup(c, req.url).None? && net(req).Resolved? && Cacheable(net(req).value) ==>
      && (forall n :: n in s.after.stores <==> n in c.stores || n == CacheName)
      && (forall n :: n in c.stores && n != CacheName ==> s.after.stores[n] == c.stores[n])
      && (forall k :: k in s.after.stores[CacheName] <==> k in CurrentStore(c) || k == req.url)
      && s.after.names == (if CacheName in c.stores then c.names else c.names + [CacheName])
      && s.after.stores[CacheName][req.url] == net(req).value.value
      && (forall k :: k in CurrentStore(c) && k != req.url ==> s.after.stores[CacheName][k] == CurrentStore(c)[k])
    // the network failed: the cached offline page for a navigation, the
    // placeholder otherwise; nothing written
    ensures Intercepts(req) && Lookup(c, req.url).None? && net(req).Rejected? ==>
      s.after == c &&
      s.handling == RespondWith(if req.destination == "document" then Lookup(c, OfflinePage) else Some(OfflineResponse))
  {
    if !Intercepts(req) then FetchStep(NotIntercepted, false, c)
    else match Lookup(c, req.url)
      case Some(hit) => FetchStep(RespondWith(Some(hit)), false, c)
      case None =>
        match net(req)
        case Resolved(answer) =>
          if !Cacheable(answer) then FetchStep(RespondWith(answer), true, c)
          else FetchStep(RespondWith(answer), true, Stored(Opened(c, CacheName), CacheName, req.url, answer.value))
        case Rejected =>
          if req.destination == "document" then FetchStep(RespondWith(Lookup(c, OfflinePage)), true, c)
          else FetchStep(RespondWith(Some(OfflineResponse)), true, c)
  }

  method OnFetch(storage: CacheStorage, req: Request, net: Network) returns (handling: Handling, usedNetwork: bool)
    requires storage.Valid()
    modifies storage
    ensures storage.Valid()
    ensures FetchStep(handling, usedNetwork, storage.Value()) == HandleFetch(req, old(storage.Value()), net)
  {
    if req.httpMethod != "GET" {
      return NotIntercepted, false;
    }
    if ExtensionScheme <= req.url {
      return NotIntercepted, false;
    }
    var cached := storage.Match(req.url);
    if cached.Some? {
      return RespondWith(cached), false;
    }
    var outcome := net(req);
    match outcome {
      case Resolved(answer) =>
        if answer.None? || answer.value.status != 200 || answer.value.responseType != Basic {
          return RespondWith(answer), true;
        }
        storage.Open(CacheName);
        storage.Put(CacheName, req.url, answer.value);
        return RespondWith(answer), true;
      case Rejected =>
        if req.destination == "document" {
          var page := storage.Match(OfflinePage);
          return RespondWith(page), true;
        }
        return RespondWith(Some(OfflineResponse)), true;
    }
  }
}
