/** Properties of the worker over several events: a response cached on a miss
    serves the next request, activation is idempotent and leaves lookups to
    the current store, a repeated install changes nothing, and after a
    successful install and activation the app shell is served without the
    network. */
module Lifecycle {
  import opened Fetch
  import opened CacheApi
  import opened ServiceWorker

  /** The second request for a URL that a miss cached is answered from the
      cache with the same response, whatever the network does then. */
  lemma CachedAfterMiss(req: Request, c: Caches, net: Network, later: Network)
    requires WellFormed(c) && Intercepts(req)
    requires Lookup(c, req.url).None?
    requires net(req).Resolved? && Cacheable(net(req).value)
    ensures var s := HandleFetch(req, c, net);
      HandleFetch(req, s.after, later) == FetchStep(RespondWith(net(req).value), false, s.after)
  {
    var d := HandleFetch(req, c, net).after;
    assert CacheName in d.names;
    var k :| 0 <= k < |d.names| && d.names[k] == CacheName;
    forall j | 0 <= j < k
      ensures !Holds(d.names, d.stores, req.url, j)
    {
      assert d.names[j] in d.names && d.names[j] != CacheName;
      var m :| 0 <= m < |c.names| && c.names[m] == d.names[j];
      assert !Holds(c.names, c.stores, req.url, m);
    }
    assert FirstHolder(d.names, d.stores, req.url, k);
  }

  /** After activation a lookup consults the current store alone. */
  lemma ActivatedLookup(c: Caches, key: string)
    requires WellFormed(c)
    ensures Lookup(Activate(c), key) == if key in CurrentStore(c) then Some(CurrentStore(c)[key]) else None
  {
  }

  /** Activating a second time deletes nothing more. */
  lemma ActivateIdempotent(c: Caches)
    requires WellFormed(c)
    ensures Activate(Activate(c)) == Activate(c)
  {
  }

  /** Installing again over a successful install, with the same network,
      re-adds identical entries; after a failed one it fails again. */
  lemma InstallIdempotent(c: Caches, net: Network)
    requires WellFormed(c)
    ensures Install(Install(c, net).caches, net) == Install(c, net)
  {
    var open := Opened(c, CacheName);
    UrlsToCacheDistinct();
    if AddedAll(open, CacheName, UrlsToCache, net).Some? {
      AddedAllTwice(open, CacheName, UrlsToCache, net);
    }
  }

  lemma ShellUrlsIntercepted(req: Request)
    requires req.httpMethod == "GET" && req.url in UrlsToCache
    ensures Intercepts(req)
  {
    assert forall u :: u in UrlsToCache ==> u[0] == '.';
    assert ExtensionScheme[0] == 'c';
  }

  /** Once an install has succeeded and the worker has activated, a lookup
      answers an app-shell URL with the response fetched at install time. */
  lemma InstalledLookup(c: Caches, net: Network, i: int)
    requires WellFormed(c)
    requires forall i :: 0 <= i < |UrlsToCache| ==> Accepted(net(GetRequest(UrlsToCache[i])))
    requires 0 <= i < |UrlsToCache|
    ensures var found := Lookup(Activate(Install(c, net).caches), UrlsToCache[i]);
      found.Some? && net(GetRequest(UrlsToCache[i])) == Resolved(found)
  {
    ActivatedLookup(Install(c, net).caches, UrlsToCache[i]);
  }

  /** Once an install has succeeded and the worker has activated, a lookup
      finds nothing for a URL that neither the app shell nor the earlier
      current store held. */
  lemma InstalledMiss(c: Caches, net: Network, key: string)
    requires WellFormed(c)
    requires forall i :: 0 <= i < |UrlsToCache| ==> Accepted(net(GetRequest(UrlsToCache[i])))
    requires key !in UrlsToCache && key !in CurrentStore(c)
    ensures Lookup(Activate(Install(c, net).caches), key).None?
  {
    ActivatedLookup(Install(c, net).caches, key);
  }

  /** Once an install has succeeded and the worker has activated, every GET
      for the app shell is answered with the response fetched at install
      time, without the network and without writing. */
  lemma ShellServedFromCache(c: Caches, net: Network, req: Request, later: Network)
    requires WellFormed(c)
    requires forall i :: 0 <= i < |UrlsToCache| ==> Accepted(net(GetRequest(UrlsToCache[i])))
    requires req.httpMethod == "GET" && req.url in UrlsToCache
    ensures var ready := Activate(Install(c, net).caches);
      var s := HandleFetch(req, ready, later);
      && s.handling.RespondWith? && net(GetRequest(req.url)) == Resolved(s.handling.response)
      && !s.usedNetwork && s.after == ready
  {
    ShellUrlsIntercepted(req);
    var i :| 0 <= i < |UrlsToCache| && UrlsToCache[i] == req.url;
    InstalledLookup(c, net, i);
  }

  /** Once an install has succeeded and the worker has activated, a page
      navigation for a URL outside the app shell and the earlier cache, made
      while the network is down, gets the `./index.html` fetched at install
      time. */
  lemma OfflinePageAfterInstall(c: Caches, net: Network, req: Request, later: Network)
    requires WellFormed(c)
    requires forall i :: 0 <= i < |UrlsToCache| ==> Accepted(net(GetRequest(UrlsToCache[i])))
    requires Intercepts(req) && req.destination == "document"
    requires req.url !in UrlsToCache && req.url !in CurrentStore(c)
    requires later(req).Rejected?
    ensures var ready := Activate(Install(c, net).caches);
      var s := HandleFetch(req, ready, later);
      && s.handling.RespondWith? && net(GetRequest(OfflinePage)) == Resolved(s.handling.response)
      && s.usedNetwork && s.after == ready
  {
    InstalledMiss(c, net, req.url);
    InstalledLookup(c, net, 1);
  }

  /** A stale generation next to the current one (the stores
      `filipino-recipes-v2.0.0` and `filipino-recipes-v3.0.0`, say): activation
      keeps only the current one, with its contents. */
  lemma ActivateDropsPreviousGeneration(stale: string, previous: Store, current: Store)
    requires stale != CacheName
    ensures var c := Caches([stale, CacheName], map[stale := previous, CacheName := current]);
      WellFormed(c) && Activate(c) == Caches([CacheName], map[CacheName := current])
  {
    var c := Caches([stale, CacheName], map[stale := previous, CacheName := current]);
    assert WellFormed(c);
    assert Activate(c).stores.Keys == {CacheName};
  }
}
