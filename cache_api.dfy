/** The browser's CacheStorage (the `caches` global of a service worker), as
    the Cache interfaces of the W3C Service Workers specification describe it
    in sections 5.4 and 5.5: an ordered collection of named stores, each mapping
    a request key to a response. Keys are exact URL strings. */
module CacheApi {
  import opened Fetch

  /** One Cache object: request URL to stored response. */
  type Store = map<string, Response>

  /** The whole CacheStorage: store names in creation order, and the stores. */
  datatype Caches = Caches(names: seq<string>, stores: map<string, Store>)

  predicate Distinct(s: seq<string>)
  {
    forall i, j :: 0 <= i < j < |s| ==> s[i] != s[j]
  }

  /** Each store is listed once, and the listed names are exactly the stores. */
  ghost predicate WellFormed(c: Caches)
  {
    Distinct(c.names) && forall n :: n in c.stores <==> n in c.names
  }

  /** The names of `s` other than `name`, in their order. */
  function Without(s: seq<string>, name: string): (r: seq<string>)
    ensures forall x :: x in r <==> x in s && x != name
    ensures Distinct(s) ==> Distinct(r)
    ensures name !in s ==> r == s
  {
    if s == [] then []
    else
      var rest := Without(s[1..], name);
      assert forall x :: x in s[1..] ==> x in s;
      assert Distinct(s) ==> s[0] !in s[1..];
      assert s == [s[0]] + s[1..];
      if s[0] == name then rest else [s[0]] + rest
  }

  /** Removing a name that occurs once, at index `k`, cuts out that index and
      keeps the other names in their order. */
  lemma {:induction false} WithoutKeepsOrder(s: seq<string>, name: string, k: int)
    requires Distinct(s) && 0 <= k < |s| && s[k] == name
    ensures Without(s, name) == s[..k] + s[k + 1..]
  {
    assert s[1..][..k] == s[1..k + 1];
    if k == 0 {
      assert name !in s[1..];
    } else {
      assert Distinct(s[1..]) && s[1..][k - 1] == name;
      WithoutKeepsOrder(s[1..], name, k - 1);
      assert s[0] != name;
      assert s[1..][..k - 1] == s[1..k] && s[1..][k..] == s[k + 1..];
      assert s[..k] == [s[0]] + s[1..k];
    }
  }

  /** Index `i` of `names` is a store that holds `key`. */
  predicate Holds(names: seq<string>, stores: map<string, Store>, key: string, i: int)
  {
    0 <= i < |names| && names[i] in stores && key in stores[names[i]]
  }

  /** Index `i` is the first store, in creation order, that holds `key`. */
  predicate FirstHolder(names: seq<string>, stores: map<string, Store>, key: string, i: int)
  {
    Holds(names, stores, key, i) && forall j :: 0 <= j < i ==> !Holds(names, stores, key, j)
  }

  /** `caches.match(key)` (section 5.5 of the W3C Service Workers
      specification): the stores are searched in creation order and the first
      one that holds the key answers; no answer if none does. */
  function LookupIn(names: seq<string>, stores: map<string, Store>, key: string): (r: Option<Response>)
    ensures r.None? <==> forall i :: 0 <= i < |names| ==> !Holds(names, stores, key, i)
    ensures forall i :: FirstHolder(names, stores, key, i) ==> r == Some(stores[names[i]][key])
    decreases |names|
  {
    if names == [] then None
    else if names[0] in stores && key in stores[names[0]] then
      assert Holds(names, stores, key, 0);
      Some(stores[names[0]][key])
    else
      assert !Holds(names, stores, key, 0);
      assert forall i :: 1 <= i < |names| ==>
        (Holds(names, stores, key, i) <==> Holds(names[1..], stores, key, i - 1));
      assert forall i :: 0 <= i < |names| - 1 ==>
        (Holds(names[1..], stores, key, i) <==> Holds(names, stores, key, i + 1));
      LookupIn(names[1..], stores, key)
  }

  function Lookup(c: Caches, key: string): Option<Response>
  {
    LookupIn(c.names, c.stores, key)
  }

  /** `caches.open(name)`: an existing store is left as it is; a missing one is
      created empty and listed last. */
  function Opened(c: Caches, name: string): (r: Caches)
    requires WellFormed(c)
    ensures WellFormed(r)
    ensures name in c.stores ==> r == c
    ensures name !in c.stores ==> r.names == c.names + [name] && r.stores[name] == map[]
    ensures forall n :: n in r.stores <==> n in c.stores || n == name
    ensures forall n :: n in c.stores ==> r.stores[n] == c.stores[n]
  {
    if name in c.stores then c
    else Caches(c.names + [name], c.stores[name := map[]])
  }

  /** `cache.put(key, response)` on the store `name`: that store maps `key` to
      `response` afterwards, and every other store and key is as before. */
  function Stored(c: Caches, name: string, key: string, response: Response): (r: Caches)
    requires WellFormed(c) && name in c.stores
    ensures WellFormed(r) && r.names == c.names
    ensures forall n :: n in r.stores <==> n in c.stores
    ensures key in r.stores[name] && r.stores[name][key] == response
    ensures forall k :: k in r.stores[name] <==> k in c.stores[name] || k == key
    ensures forall k :: k in c.stores[name] && k != key ==> r.stores[name][k] == c.stores[name][k]
    ensures forall n :: n in c.stores && n != name ==> r.stores[n] == c.stores[n]
  {
    Caches(c.names, c.stores[name := c.stores[name][key := response]])
  }

  /** `caches.delete(name)`: the store is gone, the others keep their contents
      and their order. */
  function Deleted(c: Caches, name: string): (r: Caches)
    requires WellFormed(c)
    ensures WellFormed(r)
    ensures forall n :: n in r.stores <==> n in c.stores && n != name
    ensures forall n :: n in r.stores ==> r.stores[n] == c.stores[n]
    ensures r.names == Without(c.names, name)
  {
    if name in c.stores then Caches(Without(c.names, name), c.stores - {name})
    else c
  }

  /** Whether `cache.addAll` accepts what the network gave for one request:
      a response whose type is not `error` and whose status is ok and not 206. */
  predicate Accepted(outcome: FetchOutcome)
  {
    && outcome.Resolved?
    && outcome.value.Some?
    && outcome.value.value.responseType != Error
    && IsOkStatus(outcome.value.value.status)
    && outcome.value.value.status != 206
  }

  /** The fetch phase of `cache.addAll(urls)`: every response, or nothing if
      any request is not accepted. */
  function FetchAll(urls: seq<string>, net: Network): (r: Option<seq<Response>>)
    ensures r.Some? <==> forall i :: 0 <= i < |urls| ==> Accepted(net(GetRequest(urls[i])))
    ensures r.Some? ==> |r.value| == |urls|
    ensures r.Some? ==> forall i :: 0 <= i < |urls| ==> net(GetRequest(urls[i])) == Resolved(Some(r.value[i]))
    decreases |urls|
  {
    if urls == [] then Some([])
    else
      var outcome := net(GetRequest(urls[0]));
      if !Accepted(outcome) then None
      else match FetchAll(urls[1..], net)
        case None => None
        case Some(rest) => Some([outcome.value.value] + rest)
  }

  /** `store` with `keys[i]` mapped to `values[i]` for each `i`, in order. */
  function WithEntries(store: Store, keys: seq<string>, values: seq<Response>): (r: Store)
    requires |keys| == |values|
    ensures forall k :: k in r <==> k in store || k in keys
    ensures forall k :: k in store && k !in keys ==> r[k] == store[k]
    ensures Distinct(keys) ==> forall i :: 0 <= i < |keys| ==> r[keys[i]] == values[i]
    decreases |keys|
  {
    if keys == [] then store
    else
      assert Distinct(keys) ==> keys[0] !in keys[1..];
      assert forall k :: k in keys[1..] ==> k in keys;
      WithEntries(store[keys[0] := values[0]], keys[1..], values[1..])
  }

  /** `cache.addAll(urls)` on the store `name` (section 5.4 of the W3C Service
      Workers specification): every URL is fetched first; the batch is
      written only if every response is accepted and no URL repeats, and
      otherwise nothing is written. */
  function AddedAll(c: Caches, name: string, urls: seq<string>, net: Network): (r: Option<Caches>)
    requires WellFormed(c) && name in c.stores
    ensures r.Some? <==> Distinct(urls) && forall i :: 0 <= i < |urls| ==> Accepted(net(GetRequest(urls[i])))
    ensures r.Some? ==> WellFormed(r.value) && r.value.names == c.names
    ensures r.Some? ==> forall n :: n in r.value.stores <==> n in c.stores
    ensures r.Some? ==> forall n :: n in c.stores && n != name ==> r.value.stores[n] == c.stores[n]
    ensures r.Some? ==> forall i :: 0 <= i < |urls| ==>
      urls[i] in r.value.stores[name] && net(GetRequest(urls[i])) == Resolved(Some(r.value.stores[name][urls[i]]))
    ensures r.Some? ==> forall k :: k in r.value.stores[name] <==> k in c.stores[name] || k in urls
    ensures r.Some? ==> forall k :: k in c.stores[name] && k !in urls ==> r.value.stores[name][k] == c.stores[name][k]
  {
    match FetchAll(urls, net)
    case None => None
    case Some(responses) =>
      if Distinct(urls) then Some(Caches(c.names, c.stores[name := WithEntries(c.stores[name], urls, responses)]))
      else None
  }

  /** Writing the same batch twice leaves what writing it once left. */
  lemma WithEntriesTwice(store: Store, keys: seq<string>, values: seq<Response>)
    requires |keys| == |values| && Distinct(keys)
    ensures WithEntries(WithEntries(store, keys, values), keys, values) == WithEntries(store, keys, values)
  {
  }

  /** A second `addAll` of the same URLs against the same network, after one
      that succeeded, succeeds and changes nothing. */
  lemma AddedAllTwice(c: Caches, name: string, urls: seq<string>, net: Network)
    requires WellFormed(c) && name in c.stores && AddedAll(c, name, urls, net).Some?
    ensures AddedAll(AddedAll(c, name, urls, net).value, name, urls, net) == AddedAll(c, name, urls, net)
  {
    var responses := FetchAll(urls, net).value;
    var once := WithEntries(c.stores[name], urls, responses);
    var d := AddedAll(c, name, urls, net).value;
    assert d == Caches(c.names, c.stores[name := once]);
    WithEntriesTwice(c.stores[name], urls, responses);
    assert d.stores[name := WithEntries(d.stores[name], urls, responses)] == d.stores;
  }

  /** The fetch phase of `cache.addAll`: asks the network for each URL in
      turn and stops at the first outcome that is not accepted. */
  method FetchResponses(urls: seq<string>, net: Network) returns (r: Option<seq<Response>>)
    ensures r == FetchAll(urls, net)
  {
    var responses: seq<Response> := [];
    for i := 0 to |urls|
      invariant |responses| == i
      invariant forall j :: 0 <= j < i ==> net(GetRequest(urls[j])) == Resolved(Some(responses[j]))
      invariant forall j :: 0 <= j < i ==> Accepted(net(GetRequest(urls[j])))
    {
      var outcome := net(GetRequest(urls[i]));
      if !Accepted(outcome) {
        return None;
      }
      responses := responses + [outcome.value.value];
    }
    assert FetchAll(urls, net).Some?;
    assert FetchAll(urls, net).value == responses;
    return Some(responses);
  }

  /** The write phase of `cache.addAll`: puts each entry of the batch in turn. */
  method WriteBatch(store: Store, keys: seq<string>, values: seq<Response>) returns (r: Store)
    requires |keys| == |values|
    ensures r == WithEntries(store, keys, values)
  {
    r := store;
    for j := 0 to |keys|
      invariant WithEntries(r, keys[j..], values[j..]) == WithEntries(store, keys, values)
    {
      assert keys[j..][1..] == keys[j + 1..] && values[j..][1..] == values[j + 1..];
      r := r[keys[j] := values[j]];
    }
    assert keys[|keys|..] == [] && values[|values|..] == [];
  }

  /** The CacheStorage object, updated in place by the service worker. */
  class CacheStorage {
    var names: seq<string>
    var stores: map<string, Store>

    function Value(): Caches
      reads this
    {
      Caches(names, stores)
    }

    ghost predicate Valid()
      reads this
    {
      WellFormed(Value())
    }

    constructor ()
      ensures Valid() && Value() == Caches([], map[])
    {
      names := [];
      stores := map[];
    }

    method Open(name: string)
      requires Valid()
      modifies this
      ensures Valid() && Value() == Opened(old(Value()), name)
    {
      if name !in stores {
        names := names + [name];
        stores := stores[name := map[]];
      }
    }

    method Put(name: string, key: string, response: Response)
      requires Valid() && name in stores
      modifies this
      ensures Valid() && Value() == Stored(old(Value()), name, key, response)
    {
      stores := stores[name := stores[name][key := response]];
    }

    /** Returns whether a store of that name existed, as `caches.delete` does. */
    method Delete(name: string) returns (existed: bool)
      requires Valid()
      modifies this
      ensures existed == (name in old(stores))
      ensures Valid() && Value() == Deleted(old(Value()), name)
    {
      existed := name in stores;
      if existed {
        names := Without(names, name);
        stores := stores - {name};
      }
    }

    /** Fetches every URL, then writes them all or, if `cache.addAll` would
        reject, nothing. */
    method AddAll(name: string, urls: seq<string>, net: Network) returns (ok: bool)
      requires Valid() && name in stores
      modifies this
      ensures Valid()
      ensures ok == AddedAll(old(Value()), name, urls, net).Some?
      ensures Value() == if ok then AddedAll(old(Value()), name, urls, net).value else old(Value())
    {
      var fetched := FetchResponses(urls, net);
      if fetched.None? || !Distinct(urls) {
        return false;
      }
      var store := WriteBatch(stores[name], urls, fetched.value);
      stores := stores[name := store];
      ok := true;
    }

    /** `caches.match(key)`: scans the stores in creation order. */
    method Match(key: string) returns (r: Option<Response>)
      ensures r == Lookup(Value(), key)
    {
      for i := 0 to |names|
        invariant forall j :: 0 <= j < i ==> !Holds(names, stores, key, j)
      {
        if names[i] in stores && key in stores[names[i]] {
          assert FirstHolder(names, stores, key, i);
          return Some(stores[names[i]][key]);
        }
      }
      return None;
    }
  }
}
