/** The two cache tiers of NetworkManager as values: the in-memory Map of
    `{data, expires}` entries and the sessionStorage entries under the
    `mdc_cache_v1_` namespace, with lazy expiry on read, the size guard, and the
    sweeps of cleanupExpiredCache and clearCache. A read answers `JNull` for a miss,
    as the source answers `null`. */
module CacheTiers {
  import opened Wrappers
  import opened Text
  import opened Json
  import opened Base64
  import opened CacheKeys

  const MEMORY_TTL: int := 300000
  const SESSION_TTL: int := 600000
  const MAX_SESSION_SIZE: int := 512000

  datatype MemEntry = MemEntry(data: Json, expires: int)

  /** What a sessionStorage slot holds, as JSON.parse reads it back: a record with its
      stored text length, or text that does not parse (the empty string included). */
  datatype Stored = Record(data: Json, expires: int, size: nat) | Unparsable

  type MemoryCache = map<string, MemEntry>
  type SessionStore = map<string, Stored>

  // ----- memory tier -----

  /** getFromMemoryCache at time `now`: the answer and the Map afterwards. */
  function MemRead(mem: MemoryCache, key: string, now: int): (r: (Json, MemoryCache))
    ensures r.0 != JNull ==> key in mem && mem[key].data == r.0 && now <= mem[key].expires
    ensures key !in mem ==> r == (JNull, mem)
    ensures key in mem && now > mem[key].expires ==> r == (JNull, mem - {key})
    ensures key in mem && now <= mem[key].expires ==> r == (mem[key].data, mem)
  {
    if key !in mem then (JNull, mem)
    else if now > mem[key].expires then (JNull, mem - {key})
    else (mem[key].data, mem)
  }

  /** setMemoryCache(key, data, ttl) at time `now`. */
  function MemWrite(mem: MemoryCache, key: string, data: Json, now: int, ttl: int): (r: MemoryCache)
    ensures r.Keys == mem.Keys + {key}
    ensures r[key] == MemEntry(data, now + ttl)
    ensures forall k :: k in mem && k != key ==> r[k] == mem[k]
  {
    mem[key := MemEntry(data, now + ttl)]
  }

  /** Set, then get no later than `now + ttl`: the data comes back and the Map stays. */
  lemma MemSetThenGet(mem: MemoryCache, key: string, data: Json, now: int, ttl: int, later: int)
    requires later <= now + ttl
    ensures MemRead(MemWrite(mem, key, data, now, ttl), key, later)
            == (data, MemWrite(mem, key, data, now, ttl))
  {
  }

  /** Set, then get after `now + ttl`: a miss, and the entry is gone. */
  lemma MemSetThenExpire(mem: MemoryCache, key: string, data: Json, now: int, ttl: int, later: int)
    requires later > now + ttl
    ensures MemRead(MemWrite(mem, key, data, now, ttl), key, later).0 == JNull
    ensures key !in MemRead(MemWrite(mem, key, data, now, ttl), key, later).1
  {
  }

  /** A write touches no other key's read. */
  lemma MemWriteFrame(mem: MemoryCache, key: string, data: Json, now: int, ttl: int,
                      other: string, later: int)
    requires other != key
    ensures MemRead(MemWrite(mem, key, data, now, ttl), other, later).0 == MemRead(mem, other, later).0
  {
  }

  // ----- session tier -----

  /** JSON.stringify({ data, expires }): the text a session write stores. */
  function SerializeEntry(data: Json, expires: int): string
  {
    Stringify(JObj([Field("data", data), Field("expires", JNum(expires))]))
  }

  /** getFromSessionCache at time `now` on the slot `sk` (None when btoa throws): the
      answer and the store afterwards. A missing or unparsable slot answers null and
      stays; an expired or oversized record answers null and is removed; a live record
      within the size limit answers its data. */
  function SessionReadAt(store: SessionStore, sk: Option<string>, now: int): (r: (Json, SessionStore))
    ensures r.1.Keys <= store.Keys && forall k :: k in r.1 ==> r.1[k] == store[k]
    ensures sk.None? || sk.value !in store || store[sk.value].Unparsable? ==> r == (JNull, store)
    ensures sk.Some? && sk.value in store && store[sk.value].Record? ==>
              var e := store[sk.value];
              if now > e.expires || e.size > MAX_SESSION_SIZE then r == (JNull, store - {sk.value})
              else r == (e.data, store)
  {
    match sk
    case None => (JNull, store)
    case Some(k) =>
      if k !in store then (JNull, store)
      else match store[k]
        case Unparsable => (JNull, store)
        case Record(data, expires, size) =>
          if now > expires then (JNull, store - {k})
          else if size > MAX_SESSION_SIZE then (JNull, store - {k})
          else (data, store)
  }

  /** setSessionCache(key, data, ttl) at time `now` on the slot `sk`. The size guard
      counts UTF-16 code units, as `.length` does. `accepted` is false when
      sessionStorage.setItem throws (quota, storage disabled); the error is swallowed. */
  function SessionWriteAt(store: SessionStore, sk: Option<string>, data: Json, now: int, ttl: int,
                          accepted: bool): (r: SessionStore)
    ensures sk.None? || !accepted || Utf16Length(SerializeEntry(data, now + ttl)) > MAX_SESSION_SIZE
            ==> r == store
    ensures sk.Some? && accepted && Utf16Length(SerializeEntry(data, now + ttl)) <= MAX_SESSION_SIZE ==>
              r.Keys == store.Keys + {sk.value}
              && r[sk.value] == Record(data, now + ttl, Utf16Length(SerializeEntry(data, now + ttl)))
              && forall k :: k in store && k != sk.value ==> r[k] == store[k]
  {
    match sk
    case None => store
    case Some(k) =>
      var size := Utf16Length(SerializeEntry(data, now + ttl));
      if size > MAX_SESSION_SIZE then store
      else if !accepted then store
      else store[k := Record(data, now + ttl, size)]
  }

  /** The session tier as the manager uses it, keyed by getSessionKey as written. */
  function SessionRead(store: SessionStore, cacheKey: string, now: int): (Json, SessionStore)
  {
    SessionReadAt(store, SessionKeyAsWritten(cacheKey), now)
  }

  function SessionWrite(store: SessionStore, cacheKey: string, data: Json, now: int, ttl: int,
                        accepted: bool): SessionStore
  {
    SessionWriteAt(store, SessionKeyAsWritten(cacheKey), data, now, ttl, accepted)
  }

  /** The session tier keyed by the corrected session key. */
  function SessionReadCorrected(store: SessionStore, cacheKey: string, now: int): (Json, SessionStore)
  {
    SessionReadAt(store, GetSessionKey(cacheKey), now)
  }

  function SessionWriteCorrected(store: SessionStore, cacheKey: string, data: Json, now: int,
                                 ttl: int, accepted: bool): SessionStore
  {
    SessionWriteAt(store, GetSessionKey(cacheKey), data, now, ttl, accepted)
  }

  /** A write that fits and is accepted reads back until it expires. */
  lemma SessionSetThenGet(store: SessionStore, cacheKey: string, data: Json, now: int, ttl: int,
                          later: int)
    requires SessionKeyAsWritten(cacheKey).Some?
    requires Utf16Length(SerializeEntry(data, now + ttl)) <= MAX_SESSION_SIZE
    requires later <= now + ttl
    ensures SessionRead(SessionWrite(store, cacheKey, data, now, ttl, true), cacheKey, later).0 == data
  {
  }

  /** Two cache keys whose session keys coincide share one slot: a write under one is
      read back under the other. */
  lemma SharedSlotCrossRead(store: SessionStore, k1: string, k2: string, data: Json, now: int,
                            ttl: int, later: int)
    requires SessionKeyAsWritten(k1).Some? && SessionKeyAsWritten(k1) == SessionKeyAsWritten(k2)
    requires Utf16Length(SerializeEntry(data, now + ttl)) <= MAX_SESSION_SIZE
    requires later <= now + ttl
    ensures SessionRead(SessionWrite(store, k1, data, now, ttl, true), k2, later).0 == data
  {
  }

  /** With the key as written, a write under one cache key is read back under a
      different one: the two keys of the collision share a slot. */
  lemma SessionCrossRead(store: SessionStore, data: Json, now: int, ttl: int, later: int)
    requires Utf16Length(SerializeEntry(data, now + ttl)) <= MAX_SESSION_SIZE
    requires later <= now + ttl
    ensures "GET:/site/properties>page=1:" != "GET:/site/properties?page=1:"
    ensures SessionRead(SessionWrite(store, "GET:/site/properties>page=1:", data, now, ttl, true),
                        "GET:/site/properties?page=1:", later).0 == data
  {
    var k1, k2 := "GET:/site/properties>page=1:", "GET:/site/properties?page=1:";
    SessionKeyAsWrittenCollides();
    SharedSlotCrossRead(store, k1, k2, data, now, ttl, later);
  }

  /** With the corrected key, a write under one cache key never changes what another
      cache key reads: distinct cache keys have distinct session keys. */
  lemma SessionWriteFrame(store: SessionStore, cacheKey: string, data: Json, now: int, ttl: int,
                          accepted: bool, other: string, later: int)
    requires other != cacheKey
    ensures SessionReadCorrected(SessionWriteCorrected(store, cacheKey, data, now, ttl, accepted),
                                 other, later).0
            == SessionReadCorrected(store, other, later).0
  {
    if GetSessionKey(other).Some? && GetSessionKey(other) == GetSessionKey(cacheKey) {
      SessionKeyInjective(other, cacheKey);
    }
  }

  // ----- sweeps -----

  /** cleanupExpiredCache on the memory tier: the entries with `now > expires` go. */
  function SweepMemory(mem: MemoryCache, now: int): (r: MemoryCache)
    ensures forall k :: k in r <==> k in mem && now <= mem[k].expires
    ensures forall k :: k in r ==> r[k] == mem[k]
  {
    map k | k in mem && now <= mem[k].expires :: mem[k]
  }

  /** The session slots cleanupExpiredCache removes: in the namespace, and either
      unparsable or expired. */
  predicate SweptAt(key: string, s: Stored, now: int)
  {
    StartsWith(key, SESSION_PREFIX) && (s.Unparsable? || now > s.expires)
  }

  function SweepSession(store: SessionStore, now: int): (r: SessionStore)
    ensures forall k :: k in r <==> k in store && !SweptAt(k, store[k], now)
    ensures forall k :: k in r ==> r[k] == store[k]
  {
    map k | k in store && !SweptAt(k, store[k], now) :: store[k]
  }

  /** The sweep is invisible to reads at the same time or later: lazy expiry would have
      answered the same. */
  lemma SweepMemoryInvisible(mem: MemoryCache, now: int, later: int, key: string)
    requires now <= later
    ensures MemRead(SweepMemory(mem, now), key, later).0 == MemRead(mem, key, later).0
  {
  }

  lemma SweepSessionInvisible(store: SessionStore, now: int, later: int, cacheKey: string)
    requires now <= later
    ensures SessionRead(SweepSession(store, now), cacheKey, later).0
            == SessionRead(store, cacheKey, later).0
  {
    var sk := SessionKeyAsWritten(cacheKey);
    if sk.Some? && sk.value in store && SweptAt(sk.value, store[sk.value], now) {
      assert SessionRead(store, cacheKey, later).0 == JNull;
    }
  }

  /** A pattern is used only when truthy: absent or "" clears everything. */
  predicate HasPattern(pattern: Option<string>)
  {
    pattern.Some? && pattern.value != ""
  }

  /** clearCache(pattern) on the memory tier. */
  function ClearMemory(mem: MemoryCache, pattern: Option<string>): (r: MemoryCache)
    ensures forall k :: k in r <==> k in mem && HasPattern(pattern) && !Contains(k, pattern.value)
    ensures forall k :: k in r ==> r[k] == mem[k]
  {
    if HasPattern(pattern) then map k | k in mem && !Contains(k, pattern.value) :: mem[k]
    else map[]
  }

  /** The session slots clearCache removes: in the namespace, and matching the pattern
      (the encoded session key is matched, not the cache key). */
  predicate ClearedBy(key: string, pattern: Option<string>)
  {
    StartsWith(key, SESSION_PREFIX) && (!HasPattern(pattern) || Contains(key, pattern.value))
  }

  function ClearSession(store: SessionStore, pattern: Option<string>): (r: SessionStore)
    ensures forall k :: k in r <==> k in store && !ClearedBy(k, pattern)
    ensures forall k :: k in r ==> r[k] == store[k]
  {
    map k | k in store && !ClearedBy(k, pattern) :: store[k]
  }

  /** A session key holds no ':': the namespace has none, and btoa's output with its
      marks stripped is letters and digits. */
  lemma SessionKeyNoColon(cacheKey: string)
    requires SessionKeyAsWritten(cacheKey).Some?
    ensures !Contains(SessionKeyAsWritten(cacheKey).value, ":")
  {
    var e := Btoa(cacheKey).value;
    assert forall i :: 0 <= i < |e| ==> e[i] != ':' by {
      assert forall i :: 0 <= i < |e| ==> IsAlphabetChar(e[i]) || e[i] == '=';
    }
    StripMarksAbsent(e, ':');
    var sk := SessionKeyAsWritten(cacheKey).value;
    assert sk == SESSION_PREFIX + StripMarks(e);
    forall i | 0 <= i < |sk| ensures sk[i] != ':' {
      if i < |SESSION_PREFIX| {
        assert sk[i] == SESSION_PREFIX[i];
      } else {
        assert sk[i] == StripMarks(e)[i - |SESSION_PREFIX|];
      }
    }
    AbsentCharNotContained(sk, ':');
  }

  /** A pattern holding ':' (a cache key, or a "GET:" prefix of one) never clears a
      session entry that the manager wrote: it can only clear the memory tier. */
  lemma {:induction false} ColonPatternSparesSession(store: SessionStore, pattern: string,
                                                     cacheKey: string)
    requires Contains(pattern, ":")
    requires SessionKeyAsWritten(cacheKey).Some? && SessionKeyAsWritten(cacheKey).value in store
    ensures var sk := SessionKeyAsWritten(cacheKey).value;
            sk in ClearSession(store, Some(pattern)) && ClearSession(store, Some(pattern))[sk] == store[sk]
  {
    var sk := SessionKeyAsWritten(cacheKey).value;
    SessionKeyNoColon(cacheKey);
    if Contains(sk, pattern) {
      ContainsTransitive(sk, pattern, ":");
    }
    assert !ClearedBy(sk, Some(pattern));
  }
}
