/** NetworkManager: the request mediator of site-footer.js. It answers from two cache
    tiers, shares one request among callers with the same cache key (`inFlight`), keeps
    an admission counter against a ceiling of six with a FIFO queue, and settles each
    request through the retry loop of executeRequest.

    A request's promise is modelled by an id into `requests`, whose status is Pending
    until `Settle` runs that request's transport outcomes; requests may settle in any
    order. Clock readings are the `now` parameters, sessionStorage is a map the manager
    owns (it outlives the manager, so the constructor receives it), and `new URL` with
    the `_origin` rewrite is the function `rewrite` given to the constructor. */
module Network {
  import opened Wrappers
  import opened Text
  import opened Json
  import opened CacheKeys
  import opened Retry
  import opened CacheTiers

  const CONCURRENT_REQUESTS: int := 6

  /** The options fetch reads (timeout and signal end a transport call with Abort). */
  datatype Options = Options(verb: Option<string>, body: Option<Json>, retries: nat,
                             retryDelay: int, useCache: bool, useSessionCache: bool)

  const DEFAULT_OPTIONS: Options := Options(None, None, 0, 1000, true, false)

  /** shouldUseSessionCache: the URL names one of the safe endpoints. */
  predicate ShouldUseSessionCache(url: string)
  {
    Contains(url, "/site/properties") || Contains(url, "/property")
    || Contains(url, "/site/properties-similar")
  }

  /** The third safe endpoint adds nothing: every URL naming it names the first. */
  lemma SimilarEndpointRedundant(url: string)
    ensures ShouldUseSessionCache(url) <==> Contains(url, "/site/properties") || Contains(url, "/property")
  {
    if Contains(url, "/site/properties-similar") {
      ContainsSlice("/site/properties-similar", 0, 16);
      assert "/site/properties-similar"[0..16] == "/site/properties";
      ContainsTransitive(url, "/site/properties-similar", "/site/properties");
    }
  }

  /** The URL actually requested: URLs naming the webhook host go through `new URL`
      (which adds `_origin`); when that throws, the URL is used as given. */
  function RequestUrl(url: string, rewrite: string -> Option<string>): (r: string)
    ensures !Contains(url, "webhook") && !Contains(url, "n8n") ==> r == url
    ensures r == url || rewrite(url) == Some(r)
  {
    if Contains(url, "webhook") || Contains(url, "n8n") then
      match rewrite(url)
      case Some(u) => u
      case None => url
    else url
  }

  /** The cache key fetch uses: built from the requested URL. */
  function FetchKey(url: string, options: Options, rewrite: string -> Option<string>): string
  {
    GetCacheKey(RequestUrl(url, rewrite), options.verb, options.body)
  }

  /** `useSessionCache || shouldUseSessionCache(url)`, on the URL as given. */
  predicate UseSession(url: string, options: Options)
  {
    options.useSessionCache || ShouldUseSessionCache(url)
  }

  /** The cache path of fetch: memory first, then (when allowed) the session tier, whose
      hit is copied into memory. The answer, then both tiers afterwards. */
  function Lookup(mem: MemoryCache, store: SessionStore, key: string, useCache: bool,
                  useSession: bool, now: int): (r: (Json, MemoryCache, SessionStore))
    ensures !useCache ==> r == (JNull, mem, store)
    ensures r.0 != JNull ==> MemRead(r.1, key, now).0 == r.0
    ensures !useSession ==> r.2 == store
    ensures (useCache && MemRead(mem, key, now).0 == JNull
             && (!useSession || SessionRead(store, key, now).0 == JNull)) ==> r.0 == JNull
  {
    if !useCache then (JNull, mem, store)
    else
      var (m, mem1) := MemRead(mem, key, now);
      if m != JNull then (m, mem1, store)
      else if !useSession then (JNull, mem1, store)
      else
        var (sv, store1) := SessionRead(store, key, now);
        if sv != JNull then (sv, MemWrite(mem1, key, sv, now, MEMORY_TTL), store1)
        else (JNull, mem1, store1)
  }

  /** A live memory entry answers before the session tier is consulted. */
  lemma MemoryAnswersFirst(mem: MemoryCache, store: SessionStore, key: string, useSession: bool,
                           now: int)
    requires key in mem && now <= mem[key].expires && mem[key].data != JNull
    ensures Lookup(mem, store, key, true, useSession, now) == (mem[key].data, mem, store)
  {
  }

  /** A session hit is promoted: the memory tier answers it for MEMORY_TTL afterwards. */
  lemma SessionHitPromoted(mem: MemoryCache, store: SessionStore, key: string, now: int, later: int)
    requires MemRead(mem, key, now).0 == JNull
    requires SessionRead(store, key, now).0 != JNull
    requires now <= later <= now + MEMORY_TTL
    ensures var r := Lookup(mem, store, key, true, true, now);
            r.0 == SessionRead(store, key, now).0 && MemRead(r.1, key, later).0 == r.0
  {
  }

  datatype Status = Pending | Resolved(data: Json) | Rejected(error: Outcome)

  /** One call to the transport layer: the promise fetch hands out. */
  datatype Request = Request(url: string, requestUrl: string, key: string, options: Options,
                             useSession: bool, status: Status)

  /** `{ url, options, promise }` as pushed on requestQueue. */
  datatype QueueEntry = QueueEntry(url: string, options: Options, id: nat)

  /** What fetch returns: cached data, the promise of an identical request in flight,
      or the promise of a new request. */
  datatype Reply = Hit(data: Json) | Joined(id: nat) | Started(id: nat)

  /** The key processQueue registers under: recomputed from the URL as given. */
  function QueueKey(e: QueueEntry): string
  {
    GetCacheKey(e.url, e.options.verb, e.options.body)
  }

  function Settled(r: Result<Json, Outcome>): Status
  {
    match r
    case Ok(data) => Resolved(data)
    case Err(e) => Rejected(e)
  }

  lemma CardRemove(s: set<nat>, x: nat)
    requires x in s
    ensures |s - {x}| == |s| - 1
  {
    assert s == (s - {x}) + {x};
  }

  class NetworkManager {
    var memoryCache: MemoryCache
    var sessionStore: SessionStore
    var inFlight: map<string, nat>
    var requestQueue: seq<QueueEntry>
    var activeRequests: int
    var requests: map<nat, Request>
    var nextId: nat
    const rewrite: string -> Option<string>

    /** The requests whose promises have not settled. */
    ghost function PendingIds(): set<nat>
      reads this`requests
    {
      set id | id in requests && requests[id].status.Pending?
    }

    /** The counter equals the pending requests minus the queue length: every request
        is counted on admission and uncounted when it settles, queued or not. */
    ghost predicate Bookkeeping()
      reads this`requests, this`inFlight, this`requestQueue, this`activeRequests, this`nextId
    {
      (forall id :: id in requests ==> id < nextId)
      && (forall k :: k in inFlight ==> inFlight[k] in requests)
      && (forall i :: 0 <= i < |requestQueue| ==> requestQueue[i].id in requests)
      && activeRequests == |PendingIds()| - |requestQueue|
    }

    /** The admission invariant: at most six counted, and a queue only at the ceiling. */
    ghost predicate Valid()
      reads this`requests, this`inFlight, this`requestQueue, this`activeRequests, this`nextId
    {
      Bookkeeping()
      && 0 <= activeRequests <= CONCURRENT_REQUESTS
      && (requestQueue != [] ==> activeRequests == CONCURRENT_REQUESTS)
    }

    constructor(store: SessionStore, rewrite: string -> Option<string>)
      ensures Valid()
      ensures memoryCache == map[] && sessionStore == store && inFlight == map[]
      ensures requestQueue == [] && activeRequests == 0 && requests == map[]
      ensures this.rewrite == rewrite
    {
      memoryCache := map[];
      sessionStore := store;
      inFlight := map[];
      requestQueue := [];
      activeRequests := 0;
      requests := map[];
      nextId := 0;
      this.rewrite := rewrite;
      new;
      assert PendingIds() == {};
    }

    method GetFromMemoryCache(key: string, now: int) returns (r: Json)
      modifies this`memoryCache
      ensures (r, memoryCache) == MemRead(old(memoryCache), key, now)
    {
      if key !in memoryCache {
        return JNull;
      }
      if now > memoryCache[key].expires {
        memoryCache := memoryCache - {key};
        return JNull;
      }
      return memoryCache[key].data;
    }

    method GetFromSessionCache(key: string, now: int) returns (r: Json)
      modifies this`sessionStore
      ensures (r, sessionStore) == SessionRead(old(sessionStore), key, now)
    {
      var sk := SessionKeyAsWritten(key);
      if sk.None? || sk.value !in sessionStore {
        return JNull;
      }
      match sessionStore[sk.value]
      case Unparsable =>
        return JNull;
      case Record(data, expires, size) =>
        if now > expires {
          sessionStore := sessionStore - {sk.value};
          return JNull;
        }
        if size > MAX_SESSION_SIZE {
          sessionStore := sessionStore - {sk.value};
          return JNull;
        }
        return data;
    }

    method SetMemoryCache(key: string, data: Json, now: int, ttl: int)
      modifies this`memoryCache
      ensures memoryCache == MemWrite(old(memoryCache), key, data, now, ttl)
    {
      memoryCache := memoryCache[key := MemEntry(data, now + ttl)];
    }

    method SetSessionCache(key: string, data: Json, now: int, ttl: int, accepted: bool)
      modifies this`sessionStore
      ensures sessionStore == SessionWrite(old(sessionStore), key, data, now, ttl, accepted)
    {
      var sk := SessionKeyAsWritten(key);
      if sk.None? {
        return;
      }
      var serialized := SerializeEntry(data, now + ttl);
      if Utf16Length(serialized) > MAX_SESSION_SIZE {
        return;
      }
      if accepted {
        sessionStore := sessionStore[sk.value := Record(data, now + ttl, Utf16Length(serialized))];
      }
    }

    /** `keysToRemove.forEach(k => sessionStorage.removeItem(k))`. */
    method RemoveSessionKeys(keysToRemove: set<string>)
      modifies this`sessionStore
      ensures sessionStore == map k | k in old(sessionStore) && k !in keysToRemove :: old(sessionStore)[k]
    {
      var rest := keysToRemove;
      while rest != {}
        invariant rest <= keysToRemove
        invariant sessionStore == map k | k in old(sessionStore) && (k !in keysToRemove || k in rest)
                                       :: old(sessionStore)[k]
        decreases |rest|
      {
        var k :| k in rest;
        sessionStore := sessionStore - {k};
        rest := rest - {k};
      }
    }

    /** The memory loop of cleanupExpiredCache: deletes each entry with `now > expires`. */
    method SweepMemoryEntries(now: int)
      modifies this`memoryCache
      ensures memoryCache == SweepMemory(old(memoryCache), now)
    {
      var keys := memoryCache.Keys;
      while keys != {}
        invariant keys <= old(memoryCache).Keys
        invariant memoryCache == map k | k in old(memoryCache) && (k in keys || now <= old(memoryCache)[k].expires)
                                     :: old(memoryCache)[k]
        decreases |keys|
      {
        var k :| k in keys;
        if now > memoryCache[k].expires {
          memoryCache := memoryCache - {k};
        }
        keys := keys - {k};
      }
    }

    /** The scan of cleanupExpiredCache: the namespaced slots that are unparsable or expired. */
    method ExpiredSessionKeys(now: int) returns (keysToRemove: set<string>)
      ensures forall k :: k in keysToRemove <==> k in sessionStore && SweptAt(k, sessionStore[k], now)
    {
      keysToRemove := {};
      var unseen := sessionStore.Keys;
      while unseen != {}
        invariant unseen <= sessionStore.Keys
        invariant forall k :: k in keysToRemove <==>
                    k in sessionStore && k !in unseen && SweptAt(k, sessionStore[k], now)
        decreases |unseen|
      {
        var k :| k in unseen;
        if StartsWith(k, SESSION_PREFIX) {
          match sessionStore[k]
          case Unparsable =>
            keysToRemove := keysToRemove + {k};
          case Record(_, expires, _) =>
            if now > expires {
              keysToRemove := keysToRemove + {k};
            }
        }
        unseen := unseen - {k};
      }
    }

    /** cleanupExpiredCache at time `now`. */
    method CleanupExpiredCache(now: int)
      modifies this`memoryCache, this`sessionStore
      ensures memoryCache == SweepMemory(old(memoryCache), now)
      ensures sessionStore == SweepSession(old(sessionStore), now)
    {
      SweepMemoryEntries(now);
      var keysToRemove := ExpiredSessionKeys(now);
      RemoveSessionKeys(keysToRemove);
    }

    /** The memory half of clearCache with a pattern: deletes the keys containing it. */
    method DeleteMatchingMemory(pattern: string)
      modifies this`memoryCache
      ensures memoryCache == map k | k in old(memoryCache) && !Contains(k, pattern) :: old(memoryCache)[k]
    {
      var keys := memoryCache.Keys;
      while keys != {}
        invariant keys <= old(memoryCache).Keys
        invariant memoryCache == map k | k in old(memoryCache) && (k in keys || !Contains(k, pattern))
                                     :: old(memoryCache)[k]
        decreases |keys|
      {
        var k :| k in keys;
        if Contains(k, pattern) {
          memoryCache := memoryCache - {k};
        }
        keys := keys - {k};
      }
    }

    /** The scan of clearCache: the namespaced slots the pattern selects. */
    method MatchingSessionKeys(pattern: Option<string>) returns (keysToRemove: set<string>)
      ensures forall k :: k in keysToRemove <==> k in sessionStore && ClearedBy(k, pattern)
    {
      keysToRemove := {};
      var unseen := sessionStore.Keys;
      while unseen != {}
        invariant unseen <= sessionStore.Keys
        invariant forall k :: k in keysToRemove <==> k in sessionStore && k !in unseen && ClearedBy(k, pattern)
        decreases |unseen|
      {
        var k :| k in unseen;
        if StartsWith(k, SESSION_PREFIX) {
          if !HasPattern(pattern) || Contains(k, pattern.value) {
            keysToRemove := keysToRemove + {k};
          }
        }
        unseen := unseen - {k};
      }
    }

    /** clearCache(pattern). */
    method ClearCache(pattern: Option<string>)
      modifies this`memoryCache, this`sessionStore
      ensures memoryCache == ClearMemory(old(memoryCache), pattern)
      ensures sessionStore == ClearSession(old(sessionStore), pattern)
    {
      if HasPattern(pattern) {
        DeleteMatchingMemory(pattern.value);
      } else {
        memoryCache := map[];
      }
      var keysToRemove := MatchingSessionKeys(pattern);
      RemoveSessionKeys(keysToRemove);
    }

    /** processQueue: admits the head of the queue when the counter is below six,
        registering it under the key recomputed from its URL as given. */
    method ProcessQueue()
      requires Bookkeeping() && 0 <= activeRequests <= CONCURRENT_REQUESTS
      requires requestQueue != [] ==> activeRequests >= CONCURRENT_REQUESTS - 1
      modifies this`requestQueue, this`activeRequests, this`inFlight
      ensures Valid()
      ensures old(requestQueue) != [] && old(activeRequests) < CONCURRENT_REQUESTS ==>
                requestQueue == old(requestQueue)[1..]
                && activeRequests == old(activeRequests) + 1
                && inFlight == old(inFlight)[QueueKey(old(requestQueue)[0]) := old(requestQueue)[0].id]
      ensures old(requestQueue) == [] || old(activeRequests) >= CONCURRENT_REQUESTS ==>
                requestQueue == old(requestQueue) && activeRequests == old(activeRequests)
                && inFlight == old(inFlight)
    {
      if requestQueue == [] || activeRequests >= CONCURRENT_REQUESTS {
        return;
      }
      var next := requestQueue[0];
      requestQueue := requestQueue[1..];
      activeRequests := activeRequests + 1;
      var cacheKey := QueueKey(next);
      inFlight := inFlight[cacheKey := next.id];
    }

    /** The cache half of fetch: memory, then the session tier with promotion. */
    method ReadTiers(cacheKey: string, useCache: bool, useSession: bool, now: int) returns (data: Json)
      modifies this`memoryCache, this`sessionStore
      ensures (data, memoryCache, sessionStore)
              == Lookup(old(memoryCache), old(sessionStore), cacheKey, useCache, useSession, now)
    {
      if !useCache {
        return JNull;
      }
      var cached := GetFromMemoryCache(cacheKey, now);
      if cached != JNull {
        return cached;
      }
      if useSession {
        var sessionCached := GetFromSessionCache(cacheKey, now);
        if sessionCached != JNull {
          SetMemoryCache(cacheKey, sessionCached, now, MEMORY_TTL);
          return sessionCached;
        }
      }
      return JNull;
    }

    /** The admission half of fetch: a new request, counted and registered in inFlight
        below the ceiling, pushed on the queue at it. */
    method Admit(request: Request) returns (id: nat)
      requires Valid() && request.status.Pending?
      modifies this`requests, this`nextId, this`requestQueue, this`activeRequests, this`inFlight
      ensures Valid()
      ensures id !in old(requests) && nextId == id + 1 && requests == old(requests)[id := request]
      ensures old(activeRequests) < CONCURRENT_REQUESTS ==>
                activeRequests == old(activeRequests) + 1 && requestQueue == old(requestQueue)
                && inFlight == old(inFlight)[request.key := id]
      ensures old(activeRequests) >= CONCURRENT_REQUESTS ==>
                activeRequests == old(activeRequests) && inFlight == old(inFlight)
                && requestQueue == old(requestQueue) + [QueueEntry(request.url, request.options, id)]
    {
      id := nextId;
      ghost var pending := PendingIds();
      nextId := nextId + 1;
      requests := requests[id := request];
      assert PendingIds() == pending + {id};
      if activeRequests >= CONCURRENT_REQUESTS {
        requestQueue := requestQueue + [QueueEntry(request.url, request.options, id)];
      } else {
        activeRequests := activeRequests + 1;
        inFlight := inFlight[request.key := id];
      }
    }

    /** fetch(url, options) at time `now`, up to the promise it returns. */
    method Fetch(url: string, options: Options, now: int) returns (reply: Reply)
      requires Valid()
      modifies this
      ensures Valid()
      ensures var look := Lookup(old(memoryCache), old(sessionStore), FetchKey(url, options, rewrite),
                                 options.useCache, UseSession(url, options), now);
              memoryCache == look.1 && sessionStore == look.2
              && (reply.Hit? <==> look.0 != JNull) && (reply.Hit? ==> reply.data == look.0)
      ensures reply.Joined? <==> !reply.Hit? && FetchKey(url, options, rewrite) in old(inFlight)
      ensures reply.Joined? ==> reply.id == old(inFlight)[FetchKey(url, options, rewrite)]
      ensures !reply.Started? ==>
                requests == old(requests) && nextId == old(nextId) && inFlight == old(inFlight)
                && requestQueue == old(requestQueue) && activeRequests == old(activeRequests)
      ensures reply.Started? ==>
                reply.id !in old(requests) && nextId == reply.id + 1
                && requests == old(requests)[reply.id := Request(url, RequestUrl(url, rewrite),
                     FetchKey(url, options, rewrite), options, UseSession(url, options), Pending)]
      ensures reply.Started? && old(activeRequests) < CONCURRENT_REQUESTS ==>
                activeRequests == old(activeRequests) + 1 && requestQueue == old(requestQueue)
                && inFlight == old(inFlight)[FetchKey(url, options, rewrite) := reply.id]
      ensures reply.Started? && old(activeRequests) >= CONCURRENT_REQUESTS ==>
                activeRequests == old(activeRequests) && inFlight == old(inFlight)
                && requestQueue == old(requestQueue) + [QueueEntry(url, options, reply.id)]
    {
      var requestUrl := RequestUrl(url, rewrite);
      var cacheKey := GetCacheKey(requestUrl, options.verb, options.body);
      var useSession := UseSession(url, options);
      var cached := ReadTiers(cacheKey, options.useCache, useSession, now);
      if cached != JNull {
        return Hit(cached);
      }
      if cacheKey in inFlight {
        return Joined(inFlight[cacheKey]);
      }
      var id := Admit(Request(url, requestUrl, cacheKey, options, useSession, Pending));
      return Started(id);
    }

    /** The bookkeeping of the settle handlers (`.then` and `.catch` alike): the request
        settles, its key leaves inFlight, the counter drops and processQueue runs. */
    method Complete(id: nat, result: Result<Json, Outcome>)
      requires Valid()
      requires id in requests && requests[id].status.Pending?
      modifies this`requests, this`requestQueue, this`activeRequests, this`inFlight
      ensures Valid()
      ensures requests == old(requests)[id := old(requests)[id].(status := Settled(result))]
      ensures old(requestQueue) == [] ==>
                requestQueue == [] && activeRequests == old(activeRequests) - 1
                && inFlight == old(inFlight) - {old(requests)[id].key}
      ensures old(requestQueue) != [] ==>
                requestQueue == old(requestQueue)[1..] && activeRequests == old(activeRequests)
                && inFlight == (old(inFlight) - {old(requests)[id].key})
                               [QueueKey(old(requestQueue)[0]) := old(requestQueue)[0].id]
    {
      var req := requests[id];
      ghost var pending := PendingIds();
      requests := requests[id := req.(status := Settled(result))];
      assert PendingIds() == pending - {id};
      CardRemove(pending, id);
      inFlight := inFlight - {req.key};
      activeRequests := activeRequests - 1;
      ProcessQueue();
    }

    /** The promise of request `id` settles: executeRequest runs over `outcomes`, then
        the handler does its bookkeeping and, on success, writes the cache tiers at time
        `now` (`sessionAccepted` is whether sessionStorage takes the write). */
    method Settle(id: nat, outcomes: seq<Outcome>, now: int, sessionAccepted: bool)
      returns (result: Result<Json, Outcome>, delays: seq<int>, calls: nat)
      requires Valid()
      requires id in requests && requests[id].status.Pending?
      requires |outcomes| > requests[id].options.retries
      modifies this
      ensures Valid()
      ensures var req := old(requests)[id];
              Run(result, delays, calls)
              == Attempts(req.requestUrl, req.options.retries + 1, req.options.retryDelay, outcomes, 0)
      ensures requests == old(requests)[id := old(requests)[id].(status := Settled(result))]
      ensures nextId == old(nextId)
      ensures old(requestQueue) == [] ==>
                requestQueue == [] && activeRequests == old(activeRequests) - 1
                && inFlight == old(inFlight) - {old(requests)[id].key}
      ensures old(requestQueue) != [] ==>
                requestQueue == old(requestQueue)[1..] && activeRequests == old(activeRequests)
                && inFlight == (old(inFlight) - {old(requests)[id].key})
                               [QueueKey(old(requestQueue)[0]) := old(requestQueue)[0].id]
      ensures var req := old(requests)[id];
              if req.options.useCache && result.Ok? then
                memoryCache == MemWrite(old(memoryCache), req.key, result.value, now, MEMORY_TTL)
                && sessionStore == (if req.useSession
                                    then SessionWrite(old(sessionStore), req.key, result.value, now,
                                                      SESSION_TTL, sessionAccepted)
                                    else old(sessionStore))
              else memoryCache == old(memoryCache) && sessionStore == old(sessionStore)
    {
      var req := requests[id];
      result, delays, calls := ExecuteRequest(req.requestUrl, req.options.retries,
                                              req.options.retryDelay, outcomes);
      Complete(id, result);
      if req.options.useCache && result.Ok? {
        SetMemoryCache(req.key, result.value, now, MEMORY_TTL);
        if req.useSession {
          SetSessionCache(req.key, result.value, now, SESSION_TTL, sessionAccepted);
        }
      }
    }
  }
}
