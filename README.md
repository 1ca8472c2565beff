# Offline cache policy of the Filipino recipe PWA service worker

This project models the caching policy of the site's service worker, `sw.js`.
It covers the `install`, `activate` and `fetch` listeners, in Dafny.

- **CacheStorage** (`CacheApi`) is the browser's `caches` object. It follows the
  Cache interfaces of sections 5.4 and 5.5 of the W3C Service Workers
  specification. It is an ordered list of named stores, each mapping a request
  URL to a response. The pure functions `Opened`, `Stored`, `Deleted`,
  `AddedAll` and `Lookup` say what `caches.open`, `cache.put`, `caches.delete`,
  `cache.addAll` and `caches.match` do. The class `CacheStorage` holds the list
  and the map and updates them in place. Each of its methods is proved against
  one of those functions.
- **The network** is a parameter: a function from a request to the way
  `fetch` settles. It either resolves with a value, which may be absent, or it
  rejects.
- **The worker** (`ServiceWorker`) gives each listener two forms. A function
  (`Install`, `Activate`, `HandleFetch`) states the effect in its contract. A
  method (`OnInstall`, `OnActivate`, `OnFetch`) runs the listener against the
  shared `CacheStorage` object and is proved equal to that function. `Lifecycle`
  holds the lemmas that relate several events.

The constants are those of `sw.js`:
- `CACHE_NAME` is `filipino-recipes-v3.0.0`.
- The seven app-shell URLs.
- The `chrome-extension://` prefix.
- The `./index.html` navigation fallback.
- The 503 `Service Unavailable` placeholder. Its header is
  `Content-Type: text/plain` and its body is `Offline`.

Two behaviours of sw.js worth noting:
- A failed `addAll` does not fail the install. The `catch` at sw.js:31-33
  swallows the error, so the install completes and only `skipWaiting` is not
  requested.
- The cache-first lookup searches every store (`caches.match`), not only the
  current generation's store. Each store is searched in creation order.

## Model

| member | source | states |
|---|---|---|
| `CacheApi.LookupIn` | sw.js:71-77 | `caches.match`: there is no answer exactly when no store holds the key. Otherwise the answer is the entry of the first store, in creation order, that holds it. |
| `CacheApi.Opened` | sw.js:22 | `caches.open`: an existing store and the whole storage stay unchanged. A missing store is created empty and listed last. Well-formedness is kept. |
| `CacheApi.Stored` | sw.js:92-95 | `cache.put`: the store maps the key to the response afterwards. Every other key of that store, and every other store, is unchanged. The list of names is unchanged. |
| `CacheApi.Without` | sw.js:47 | Removing one name from the list keeps exactly the other names, keeps them distinct, and is the identity when the name is absent. |
| `CacheApi.WithoutKeepsOrder` | sw.js:47 | From a list of distinct names, removing the name at index `k` cuts out exactly that index and keeps the other names in their order. |
| `CacheApi.Deleted` | sw.js:47 | `caches.delete`: the named store is gone. The other stores keep their contents and their order. Well-formedness is kept. |
| `CacheApi.FetchAll` | sw.js:25 | The fetch phase of `addAll` yields responses exactly when every URL's outcome is accepted (resolved, not type error, ok status, not 206). The responses are then, one for one, what the network gave. |
| `CacheApi.WithEntries` | sw.js:25 | The batch write of `addAll`: the store gains exactly the batch keys, each maps to its own response when keys are distinct, and other keys keep their values. |
| `CacheApi.AddedAll` | sw.js:25 | `cache.addAll` is all-or-nothing. It succeeds exactly when the URLs are distinct and every fetch is accepted. On success every URL maps to its fetched response, other keys and other stores are unchanged, and the list of names is unchanged. |
| `CacheApi.WithEntriesTwice` | sw.js:25 | Writing the same batch twice leaves what writing it once left. |
| `CacheApi.AddedAllTwice` | sw.js:25 | A repeated successful `addAll` against the same network changes nothing. |
| `CacheApi.FetchResponses` | sw.js:25 | The fetch loop of `addAll` returns exactly `FetchAll`. It stops at the first outcome that is not accepted. |
| `CacheApi.WriteBatch` | sw.js:25 | The write loop of `addAll` returns exactly `WithEntries` of the store and the batch. |
| `CacheApi.CacheStorage.Open` | sw.js:22 | The in-place `caches.open` leaves the object equal to `Opened` of its old value. |
| `CacheApi.CacheStorage.Put` | sw.js:94 | The in-place `cache.put` leaves the object equal to `Stored` of its old value. |
| `CacheApi.CacheStorage.Delete` | sw.js:47 | The in-place `caches.delete` reports whether the store existed and leaves the object equal to `Deleted` of its old value. |
| `CacheApi.CacheStorage.AddAll` | sw.js:25 | The in-place `addAll` fetches every URL first. It returns true exactly when `AddedAll` succeeds, and then the object is its result. Otherwise the object is untouched. |
| `CacheApi.CacheStorage.Match` | sw.js:71 | The scan over the stores returns exactly `Lookup` of the current state and changes nothing. |
| `ServiceWorker.UrlsToCacheDistinct` | sw.js:7-15 | The seven app-shell URLs are pairwise distinct, so `addAll` does not reject them as a duplicate batch. |
| `ServiceWorker.Install` | sw.js:18-35 | `skipWaiting` is requested exactly when all seven fetches are accepted. On success each URL maps to its fetched response in the `CACHE_NAME` store, and other keys of that store are unchanged. On failure that store is exactly as before, or empty if it was just created. `CACHE_NAME` exists afterwards and is listed last if it was new. Every other store is untouched. |
| `ServiceWorker.OnInstall` | sw.js:18-35 | The install listener, run on the shared storage, returns the `skipWaiting` decision and leaves the storage as `Install` states. |
| `ServiceWorker.DeleteStale` | sw.js:42-50 | The deletion loop keeps exactly the stores that are `CACHE_NAME` or are not listed, and leaves their contents unchanged. |
| `ServiceWorker.OnlyCurrentListed` | sw.js:42-50 | Storage whose only possible store is `CACHE_NAME` lists exactly that store, or nothing. |
| `ServiceWorker.Activate` | sw.js:38-56 | After activation the list of names is `[CACHE_NAME]` if that store existed and empty otherwise. Its contents are unchanged. |
| `ServiceWorker.OnActivate` | sw.js:38-56 | The activate listener deletes every listed store whose name differs from `CACHE_NAME`, one at a time. It leaves the storage as `Activate` states. |
| `ServiceWorker.HandleFetch` | sw.js:59-118 | Non-GET and `chrome-extension://` requests are not intercepted: no network, no write. A hit answers with the stored response: no network, no write. A miss asks the network and passes a resolved answer on unchanged. Only a present, status 200, `basic` answer is written, to the `CACHE_NAME` store (created if absent, and then listed last) under the request URL. The order of the stores is kept, and no other store or key changes. A rejected fetch answers with `Lookup("./index.html")` for a document and with the exact 503 `Offline` response otherwise, writing nothing. |
| `ServiceWorker.OnFetch` | sw.js:59-118 | The fetch listener, run on the shared storage, returns the handling and whether the network was asked. It leaves the storage as `HandleFetch` states. |
| `Lifecycle.CachedAfterMiss` | sw.js:71-97 | After a miss that cached a response, the next request for that URL gets the same response from the cache. The network is not asked and nothing is written, whatever the network does then. |
| `Lifecycle.ActivatedLookup` | sw.js:42-50 | After activation, a lookup answers exactly from the `CACHE_NAME` store. |
| `Lifecycle.ActivateIdempotent` | sw.js:42-50 | Activating twice is the same as activating once. |
| `Lifecycle.InstallIdempotent` | sw.js:21-34 | Installing again against the same network gives the same storage and the same `skipWaiting` decision. |
| `Lifecycle.ShellUrlsIntercepted` | sw.js:61-68 | A GET for any app-shell URL passes the method and extension filters. |
| `Lifecycle.InstalledLookup` | sw.js:21-29 | After a successful install and an activation, a lookup of any app-shell URL finds the response fetched at install time. |
| `Lifecycle.InstalledMiss` | sw.js:21-29 | After a successful install and an activation, a lookup finds nothing for a URL that was neither in the app shell nor in the earlier current store. |
| `Lifecycle.ShellServedFromCache` | sw.js:18-77 | After a successful install and an activation, a GET for an app-shell URL is answered from the cache with the response fetched at install time. The network is not asked and nothing is written. |
| `Lifecycle.OfflinePageAfterInstall` | sw.js:99-105 | After a successful install and an activation, an uncached page navigation made while the network rejects gets the `./index.html` response fetched at install time. |
| `Lifecycle.ActivateDropsPreviousGeneration` | sw.js:42-50 | With a stale generation (`filipino-recipes-v2.0.0`, say) listed before `filipino-recipes-v3.0.0`, activation leaves only `v3.0.0`, and its contents are unchanged. |

## Left out

- The `sync`, `push` and `notificationclick` listeners (sw.js:121-175). They hold no caching logic, and the notification display, `Date.now()` and window opening they use are host services.
- Every `console.log` and `console.error` call.
- `self.skipWaiting()` is only the boolean that `Install` returns. `self.clients.claim()` and the host lifecycle (waiting, termination, retries) are not modelled.
- HTTP transport, body streams and `response.clone()`. Responses are immutable values, so the cached copy and the returned one are the same value.
- Request matching by the Cache API: `Vary` headers, resolving `./` URLs against the origin, query-string options and the method check. Keys are exact URL strings.
- `addAll`'s rejection of a response carrying `Vary: *`, and errors from building a request out of a URL.
- OnFetch: the `cache.put` at sw.js:92-95 is fire-and-forget and may be lost or race with other fetches. The model applies it atomically before the listener returns, so a lost write or an interleaving is not represented.
- OnActivate: the deletions at sw.js:43-50 run concurrently under `Promise.all`. The model runs them one after another, and a deletion never fails. The resulting storage is the same, but a failed deletion (best-effort cleanup) is not represented.
- Storage quota and other failures of `cache.put` and `cache.addAll` besides the fetch outcomes.
