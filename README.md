# A verified model of the MDC site-footer request layer and URL/format helpers

`site-footer.js` is the browser script behind the property listings of the MDC real-estate
site. This project models its core in Dafny and proves what that core promises.

- **NetworkManager** (`network.dfy`, with `cache_keys.dfy`, `cache_tiers.dfy`, `retry.dfy`) is
  a class whose fields the methods update in place. The fields are:
  - the in-memory cache;
  - the sessionStorage tier;
  - the `inFlight` map that shares one request among callers with the same cache key;
  - the FIFO request queue;
  - the `activeRequests` counter, checked against a ceiling of six.

  `executeRequest` is a `while` loop over the transport outcomes. It is proved equal to a
  recursive specification of the retry-with-backoff schedule. Every method of the class
  keeps the admission invariant:
  - `0 <= activeRequests <= 6`;
  - the queue is non-empty only at the ceiling;
  - the counter equals the pending requests minus the queue length.
- **URL helpers** (`url_helpers.dfy`, `uri_codec.dfy`) are pure functions:
  - `slugifyCity` and `buildResultsCleanUrl`;
  - `buildPropertyCleanUrl` and the path half of `parsePropertyIdFromUrl`;
  - `encodeURIComponent` / `decodeURIComponent` over UTF-8, with their round trip proved.
- **Formatting** (`format.dfy`) covers `safeText`, `formatNumber` with its `.` thousands
  grouping, `formatMoney`, `titleCaseRo` and `formatTipBadge`.
- **FavoritesStorage** (`favorites.dfy`) is a class over its one localStorage slot.
- **Supporting modules:**
  - `text.dfy`: JavaScript whitespace, `trim`, case mapping for ASCII and the Romanian letters,
    substring search;
  - `decimal.dfy`: integer to decimal text and back;
  - `json.dfy`: the values the core handles and `JSON.stringify`;
  - `base64.dfy`: `btoa` over Latin-1, with a decoder that proves it injective.

The session tier is keyed as the program writes it: `btoa` of the cache key with every
`+`, `/` and `=` removed (`CacheKeys.SessionKeyAsWritten`). The manager's session methods
use that key, so two cache keys that collide share one slot (`CacheTiers.SessionCrossRead`).
The same tier under a collision-free key (`CacheKeys.GetSessionKey`) is stated beside it,
with the frame property the program evidently intends (`CacheTiers.SessionWriteFrame`).
The 512000 size limit counts UTF-16 code units, as JavaScript's `.length` does
(`Text.Utf16Length`).

Time, storage acceptance, the transport and the `new URL` rewrite are never read inside
the model; they arrive as parameters.
- `now` is the clock reading.
- `accepted` says whether `setItem` succeeded.
- `outcomes` is the sequence of transport results: a response body, an HTTP status, an
  abort or a thrown error.
- `rewrite` is the `_origin` URL rewrite.

Where the code behaves in ways a reader might not expect, the model follows the code:
- A timeout calls `controller.abort()`. The resulting `AbortError` is rethrown at once, so a
  timed-out request is not retried. `Retry.Terminal` models this.
- A cache entry is still served when `now == expires`: the test is `now > expires`.
- Whether an error is final is decided by searching the error message for `"HTTP 4"`. The
  URL is part of that message, so a 5xx is final when the URL contains `HTTP 4`
  (`Retry.ServerErrorTerminalOnlyByUrl`).
- `processQueue` registers a dequeued request under a key recomputed from the original URL,
  not from the rewritten one.
- Duplicate requests that are already queued are not shared.
- `clearCache(pattern)` matches the pattern against the *encoded* session keys. A pattern
  containing `:` therefore never removes a session entry
  (`CacheTiers.ColonPatternSparesSession`).
- `remove` rewrites the slot even when nothing was removed.
- `add` succeeds on a stored *string* that contains the id. It throws `TypeError` on any
  other non-list.

## Model

| member | source | states |
|---|---|---|
| Network.SimilarEndpointRedundant | site-footer.js:280-283 | The session tier is used exactly when the URL contains `/site/properties` or `/property`. The third safe endpoint adds nothing. |
| Network.RequestUrl | site-footer.js:293-301 | A URL without `webhook` or `n8n` is used unchanged. Otherwise the result is the URL or its successful rewrite. |
| Network.Lookup | site-footer.js:304-318 | With caching off, nothing is read or changed. A hit is what the memory tier now returns. The session tier is untouched unless it is in use. A miss in memory, with the session tier unused or also missing, answers null. |
| Network.MemoryAnswersFirst | site-footer.js:305-309 | A live memory entry answers without touching either tier. |
| Network.SessionHitPromoted | site-footer.js:310-316 | A session hit after a memory miss is returned and copied into memory. It is then served from memory until the memory TTL runs out. |
| Network.NetworkManager.constructor | site-footer.js:193-200 | Both caches, `inFlight` and the queue start empty, the counter starts at 0, and the admission invariant holds. |
| Network.NetworkManager.GetFromMemoryCache | site-footer.js:213-221 | It returns, and leaves behind, exactly what `MemRead` specifies. |
| Network.NetworkManager.GetFromSessionCache | site-footer.js:222-240 | It returns, and leaves behind, exactly what `SessionReadAt` specifies for the session key as written. |
| Network.NetworkManager.SetMemoryCache | site-footer.js:241-243 | The memory cache becomes `MemWrite` of the old one. |
| Network.NetworkManager.SetSessionCache | site-footer.js:244-257 | The session store becomes what `SessionWriteAt` specifies for the session key as written. |
| Network.NetworkManager.RemoveSessionKeys | site-footer.js:277 | Exactly the listed keys are removed. |
| Network.NetworkManager.SweepMemoryEntries | site-footer.js:260-262 | The memory cache becomes `SweepMemory` of the old one. |
| Network.NetworkManager.ExpiredSessionKeys | site-footer.js:263-276 | The keys collected are exactly the prefixed keys whose entries are expired or unparsable. |
| Network.NetworkManager.CleanupExpiredCache | site-footer.js:258-279 | Both tiers become their sweeps at `now`. |
| Network.NetworkManager.DeleteMatchingMemory | site-footer.js:388-392 | Exactly the memory keys containing the pattern are removed. |
| Network.NetworkManager.MatchingSessionKeys | site-footer.js:395-403 | The keys collected are exactly the prefixed session keys containing the pattern, or all prefixed keys when there is no pattern. |
| Network.NetworkManager.ClearCache | site-footer.js:387-406 | The memory tier becomes `ClearMemory` and the session tier `ClearSession` of the old state. |
| Network.NetworkManager.ProcessQueue | site-footer.js:380-386 | Below the ceiling with a non-empty queue, the head is dequeued, counted, and registered in `inFlight` under its original-URL key. Otherwise nothing changes. The invariant is restored. |
| Network.NetworkManager.ReadTiers | site-footer.js:304-318 | The value read and both new tiers are exactly `Lookup`. |
| Network.NetworkManager.Admit | site-footer.js:344-350 | Below six, the request is counted and registered in `inFlight`. At six, it is appended to the queue with no count and no registration. The invariant is kept. |
| Network.NetworkManager.Fetch | site-footer.js:284-351 | A cache hit returns data and starts nothing. A pending request under the same key is joined. Otherwise a fresh request is recorded and admitted or queued. The invariant is kept. |
| Network.NetworkManager.Complete | site-footer.js:326-342 | The request settles. Its key leaves `inFlight`, the counter drops, and the queue advances one place. The invariant is kept. |
| Network.NetworkManager.Settle | site-footer.js:323-343 | The retry loop's result, delays and call count equal `Attempts`. On success with caching, memory and (when enabled) session are written. Settling follows as in `Complete`. |
| Retry.Attempts | site-footer.js:352-378 | Calls are at most `retries + 1`. The k-th delay is `retryDelay * 2^k`. Every retried outcome was a non-terminal failure. Stopping early means success or a terminal error. The result is the last outcome. |
| Retry.ExecuteRequest | site-footer.js:352-378 | The loop's result, delays and number of transport calls equal `Attempts`. |
| Retry.AttemptsStep | site-footer.js:363-373 | A non-terminal failure before the last attempt waits `retryDelay * 2^attempt` and tries again. |
| Retry.ClientErrorTerminal | site-footer.js:360-367 | Every 4xx status stops the loop at once. |
| Retry.ServerErrorTerminalOnlyByUrl | site-footer.js:360-367 | A non-4xx status is final exactly when the URL contains `HTTP 4`. |
| Retry.ClientMarkNotInHead | site-footer.js:360-367 | For a non-4xx status, any `HTTP 4` in the message lies in the URL part. |
| Retry.BackoffSchedule | site-footer.js:368-371 | Three failures and then a success with `retries = 3` wait 1000, 2000 and 4000 ms and make four calls. |
| Retry.NotFoundStopsAtOnce | site-footer.js:360-367 | A 404 on the first call ends with that error after one call and no delay. |
| Retry.Pow2 | site-footer.js:369 | The backoff factor is at least 1. |
| CacheKeys.CacheKeyInjective | site-footer.js:205-209 | Equal cache keys mean the same upper-cased method. The URL determines the body text, and the body text determines the URL. |
| CacheKeys.CacheKeyMethodCase | site-footer.js:206 | The method is case-insensitive, and a missing method is `GET`. |
| CacheKeys.SessionKeyAsWritten | site-footer.js:210-212 | It is defined exactly when `btoa` accepts the key (Latin-1), and then starts with `mdc_cache_v1_`. |
| CacheKeys.SessionKeyAsWrittenCollides | site-footer.js:210-212 | Two different cache keys map to the same session key. |
| CacheKeys.StripCollision | site-footer.js:211 | Removing `+`, `/`, `=` from `btoa` output identifies `?` and `>` at any offset congruent to 2 mod 3. |
| CacheKeys.GetSessionKey | site-footer.js:210-212 | Corrected key: defined exactly on Latin-1 keys, prefixed, and over the base64 alphabet. |
| CacheKeys.SessionKeyInjective | site-footer.js:210-212 | The corrected session key is injective. |
| CacheKeys.CollidingKeys | site-footer.js:211 | The two colliding cache keys are Latin-1, and the `?`/`>` lies at offset 20. |
| CacheTiers.MemRead | site-footer.js:213-221 | A hit is a stored entry with `now <= expires`. A missing key answers null and changes nothing. An expired entry answers null and is deleted. A live entry is returned and nothing changes. |
| CacheTiers.MemWrite | site-footer.js:241-243 | The key maps to `(data, now + ttl)`. Every other entry is unchanged. |
| CacheTiers.MemSetThenGet | site-footer.js:213-243 | A value written is read back until `now + ttl`. |
| CacheTiers.MemSetThenExpire | site-footer.js:213-243 | After `now + ttl` it is a miss, and the entry is deleted. |
| CacheTiers.MemWriteFrame | site-footer.js:213-243 | Writing one key does not change what another key reads. |
| CacheTiers.SessionReadAt | site-footer.js:222-240 | No slot (`btoa` threw), no item, or unparsable text answers `null` and leaves the store. An expired record, or one over 512000 code units, answers `null` and is removed. Any other record answers its data and the store is unchanged. A read never adds or alters an entry. |
| CacheTiers.SessionWriteAt | site-footer.js:244-257 | No slot, a refused `setItem`, or a serialized entry over 512000 UTF-16 code units leaves the store unchanged. Otherwise the slot holds the data, `now + ttl` and the entry's size, and every other entry is unchanged. |
| CacheTiers.SessionSetThenGet | site-footer.js:222-257 | Under the key as written, an accepted write that fits is read back until it expires. |
| CacheTiers.SharedSlotCrossRead | site-footer.js:210-257 | Two cache keys with the same session key share a slot: a write under one is read back under the other. |
| CacheTiers.SessionCrossRead | site-footer.js:210-257 | A write under `GET:/site/properties>page=1:` is read back under the different key `GET:/site/properties?page=1:`. |
| CacheTiers.SessionWriteFrame | site-footer.js:210-257 | Under the collision-free key, writing one cache key never changes what another cache key reads. |
| CacheTiers.SweepMemory | site-footer.js:260-262 | Exactly the entries with `now <= expires` are kept, unchanged. |
| CacheTiers.SweepSession | site-footer.js:263-277 | Exactly the prefixed keys that are expired or unparsable are removed. |
| CacheTiers.SweepMemoryInvisible | site-footer.js:258-262 | Cleanup never changes what a later memory read returns. |
| CacheTiers.SweepSessionInvisible | site-footer.js:263-277 | Cleanup never changes what a later session read returns. |
| CacheTiers.ClearMemory | site-footer.js:388-394 | With a pattern, the keys containing it are removed. Without one, everything is removed. |
| CacheTiers.ClearSession | site-footer.js:395-405 | Exactly the prefixed keys matched by the pattern (all of them without one) are removed. |
| CacheTiers.SessionKeyNoColon | site-footer.js:210-212 | A session key as written never contains `:`. |
| CacheTiers.ColonPatternSparesSession | site-footer.js:387-405 | A pattern containing `:` (as every cache key does) never clears the entry stored under a session key as written. |
| Base64.Btoa | site-footer.js:211 | `btoa` is defined exactly on Latin-1 strings. |
| Base64.DecodeEncode | site-footer.js:211 | Decoding inverts the base64 encoding. |
| Base64.BtoaInjective | site-footer.js:211 | `btoa` is injective. |
| Json.Stringify | site-footer.js:207 | The JSON text of a value is never empty. |
| Json.Quote | site-footer.js:247-248 | A stringified string is delimited by quotes. |
| UrlHelpers.SlugifyCity | site-footer.js:36-42 | The result is over `[a-z0-9-]`, with no `--` and no leading or trailing `-`. A falsy or non-string input gives `""`. |
| UrlHelpers.Dashify | site-footer.js:40 | The result is over `[a-z0-9-]` with no `--`, empty exactly for empty input, starts with `-` exactly when the input starts outside `[a-z0-9]`, and keeps the alphanumerics in order. |
| UrlHelpers.DashifyAppend | site-footer.js:40 | At a boundary just after a letter or digit, the replacement works piecewise on the two sides. |
| UrlHelpers.DashifySeparator | site-footer.js:40 | A whole run of non-`[a-z0-9]` characters between two words becomes exactly one `-`. |
| UrlHelpers.Fold | site-footer.js:39 | Romanian diacritics fold to ASCII, and `[a-z0-9-]` is unchanged. |
| UrlHelpers.SlugKeepsAlnums | site-footer.js:36-42 | The slug keeps exactly the alphanumerics of the trimmed, lower-cased, folded input. |
| UrlHelpers.SlugifyIdempotent | site-footer.js:36-42 | Slugifying a slug returns it unchanged. |
| UrlHelpers.TypeTableSlugs | site-footer.js:43-51 | Every value of `TYPE_TO_SLUG` is a non-empty path segment. |
| UrlHelpers.TypePrefix | site-footer.js:88-92 | The prefix is non-empty and URL-safe. A non-string type gives `proprietati`. A table hit gives the table value. Any other non-empty string gives the type made URL-safe, or `proprietati` when that is empty. |
| UrlHelpers.TypeFallback | site-footer.js:91 | The fallback slug of an unknown type is URL-safe. |
| UrlHelpers.TransactionSlug | site-footer.js:86 | `de-inchiriere` exactly for `rent`, and `de-vanzare` otherwise. |
| UrlHelpers.BuildResultsCleanUrl | site-footer.js:84-95 | A URL exists exactly when the transaction is truthy and the city slug is non-empty. It starts with `/` and is URL-safe after it. |
| UrlHelpers.ResultsUrlParts | site-footer.js:93 | The URL starts with `/`, the type prefix, `-`, the transaction slug and `-`, and the city slug fills the rest exactly. |
| UrlHelpers.BuildPropertyCleanUrl | site-footer.js:151-154 | Every result starts with `/proprietate`. |
| UrlHelpers.PropertyUrlRoundTrip | site-footer.js:151-166 | Parsing the built URL gives back the trimmed slug whenever that is non-empty. |
| UrlHelpers.BareRootNotParsed | site-footer.js:151-166 | A missing, non-string or blank slug builds a URL from which no slug is parsed. |
| UrlHelpers.ParseRootAndSegment | site-footer.js:159-165 | `/proprietate/<segment>` yields the decoded segment, or the raw one when decoding fails. |
| UriCodec.EncodeUriComponent | site-footer.js:153 | The output has only unreserved characters and `%XX`, never `/`. It is empty exactly for empty input. |
| UriCodec.DecodeEncode | site-footer.js:153-162 | Decoding the encoding gives the original string back. |
| UriCodec.EncodeInjective | site-footer.js:153 | Different slugs encode differently. |
| UriCodec.DecodePlain | site-footer.js:162 | Text without `%` decodes to itself. |
| Format.JsString | site-footer.js:491 | `String(v)` of a string is the string. |
| Format.SafeText | site-footer.js:490-493 | `null` gives `""`, and a string gives its trim. |
| Format.GroupDigitsDots | site-footer.js:609 | The dots fall exactly every three digits from the right, with none at either end. |
| Format.GroupDigitsRoundTrip | site-footer.js:609 | Removing the dots gives the digits back. |
| Format.FormatNumber | site-footer.js:606-610 | No number gives `""`. The text starts with `-` exactly for a negative number. |
| Format.FormatNumberRoundTrip | site-footer.js:606-610 | Reading the grouped text back gives the number. |
| Format.FormatNumberInjective | site-footer.js:606-610 | Different numbers format differently. |
| Format.CurrencySymbol | site-footer.js:598-600 | A blank currency or `EUR` shows `€`, and any other currency shows its trimmed text. |
| Format.FormatMoney | site-footer.js:595-605 | `null` exactly for a missing or zero amount. Otherwise the text is the formatted number, then `CurrencySymbol(currency)` right after it, then ` + TVA` to the end when the flag is 1 or `"1"`, and nothing after the symbol when it is not. |
| Format.MoneyShowsAmount | site-footer.js:595-605 | The amount can be read back from the price text. |
| Format.TakeWord | site-footer.js:612 | A word is the longest space-free prefix. |
| Format.WordsAreWords | site-footer.js:612 | `split(/\s+/).filter(Boolean)` yields non-empty, space-free words. |
| Format.WordsOfJoin | site-footer.js:612-614 | Splitting words joined by single spaces gives the words back. |
| Format.CapitalizeFirst | site-footer.js:613 | Only the first word changes. |
| Format.CapitalizeKeepsWords | site-footer.js:613 | Capitalising keeps the words non-empty and space-free. |
| Format.TitleWordsSplit | site-footer.js:611-614 | The title's words are the trimmed lower-cased words, with the first capitalised. |
| Format.FirstWordMatch | site-footer.js:614 | It finds the first `\b`-delimited, case-insensitive occurrence, and `None` means there is none. |
| Format.ReplaceWord | site-footer.js:614 | Same length. The first whole-word match is overwritten by the replacement and everything around it is kept. No match leaves the text unchanged. |
| Format.ReplaceWordSpaces | site-footer.js:614 | Replacement never moves a space. |
| Format.VilaStage | site-footer.js:614 | The first whole word `vila` of the title words, in any case, becomes `vilă`; the rest is kept. |
| Format.TitleCaseRo | site-footer.js:611-614 | Same length and same space positions as the capitalised, single-spaced words. It is the `vila` stage with its first whole word `inchiriere` overwritten by `Închiriere` and the rest kept. With neither word present the title words come back unchanged. |
| Format.KeywordBadge | site-footer.js:618-622 | `special` wins, then `casa` with `vila`. Otherwise `casa` alone or exactly `casă` gives `Casă`, and `vila` alone or exactly `vilă` gives `Vilă`. There is no badge exactly when none of these applies. |
| Format.FormatTipBadge | site-footer.js:615-624 | `""` exactly for blank input. `special` gives `Proprietate specială`, `casa` with `vila` gives `Casă / Vilă`, `casa` alone or `casă` gives `Casă`, and `vila` alone or `vilă` gives `Vilă`. Any other text gives `titleCaseRo` of it. |
| Favorites.Read | site-footer.js:460-467 | An empty or unparsable slot reads as `[]`. |
| Favorites.Includes | site-footer.js:478 | It is defined on lists (membership) and strings (substring), and is a `TypeError` otherwise. |
| Favorites.Added | site-footer.js:476-482 | The id is appended unless present. The old list stays a prefix. |
| Favorites.Removed | site-footer.js:483-487 | Exactly the other ids are kept, in order. |
| Favorites.AddedNoDup | site-footer.js:476-482 | Adding keeps the list duplicate-free. |
| Favorites.RemovedNoDup | site-footer.js:483-487 | Removing keeps the list duplicate-free. |
| Favorites.AddedIdempotent | site-footer.js:476-482 | Adding twice is adding once. |
| Favorites.RemovedAbsent | site-footer.js:483-487 | Removing an absent id leaves the list unchanged. |
| Favorites.RemoveUndoesAdd | site-footer.js:476-487 | Removing a freshly added id restores the list. |
| Favorites.IncludesAfterAdd | site-footer.js:476-488 | After an add, `has` is true. |
| Favorites.IncludesAfterRemove | site-footer.js:483-488 | After a remove, `has` is false. |
| Favorites.FavoritesStorage.constructor | site-footer.js:458-459 | The storage starts over the given slot. |
| Favorites.FavoritesStorage.Get | site-footer.js:460-467 | It returns `Read` of the slot. |
| Favorites.FavoritesStorage.Set | site-footer.js:468-475 | It reports whether `setItem` succeeded and then holds the list. |
| Favorites.FavoritesStorage.Add | site-footer.js:476-482 | It succeeds on a list, or on a string containing the id. On a list with an accepted write, the slot becomes `Added`. Otherwise the slot is unchanged. |
| Favorites.FavoritesStorage.Remove | site-footer.js:483-487 | It succeeds exactly on a list, and the slot becomes `Removed` even when nothing was removed. |
| Favorites.FavoritesStorage.Has | site-footer.js:488 | It returns `Includes` of what `get` reads. |
| Text.Trim | site-footer.js:38 | Both ends are non-space. The result is empty exactly when the input is all whitespace. It is the slice of the input that starts right after the leading whitespace, with only whitespace before and after it. |
| Text.Utf16Length | site-footer.js:232 | A string's `.length` in UTF-16 code units is between its number of characters and twice that. |
| Text.Lower | site-footer.js:38 | Character-wise lower case: ASCII and Romanian letters, with digits preserved. |
| Decimal.ParseNatToString | site-footer.js:609 | Decimal text reads back as the number. |
| Decimal.IntToString | site-footer.js:609 | Non-empty digits, with a leading `-` exactly for negatives. |

## Left out

- Timers: `setInterval` cleanup, the `setTimeout` abort and the backoff sleeps are not modelled as time. `CleanupExpiredCache` is a method the caller invokes with `now`. A timeout is the transport outcome `Abort`. Delays are returned as a sequence.
- Promise plumbing: a request's promise is an id with a status. Callers that join a request see that id. The `catch` around the `then` handler (which would also catch a throwing cache write) is not modelled, since the modelled writes cannot throw.
- `Network.RequestUrl`: the `new URL` parse and `_origin` rewrite are a function parameter. URL parsing is not modelled.
- Retry counts are natural numbers. A negative `retries` (the loop never runs and the promise resolves `undefined`) is not modelled.
- The `signal` option and `AbortController` are the `Abort` outcome. Cancellation from outside is not modelled.
- Stored session values are records `(data, expires, size)` or unparsable text. A parsed value that is not an object is treated as unparsable. Failures of `sessionStorage` itself (the outer `try`) are not modelled.
- Strings are sequences of Unicode scalar values. A lone UTF-16 surrogate cannot occur in them, so `Text.Utf16Length` counts two units exactly for characters above U+FFFF.
- JavaScript `null` data is indistinguishable from a miss, as in the source. `undefined` data is not modelled.
- Numbers are integers. Fractions, `Math.round`, exponent notation at 1e21 and above, and `toNum` parsing of strings are not modelled: `formatNumber` and `formatMoney` take `Option<int>`.
- Case mapping covers ASCII and the Romanian letters. Other Unicode case pairs, and the canonicalisation of `/i` regular expressions outside ASCII, are not modelled.
- `parseResultsFromUrl` and the query-string half of `parsePropertyIdFromUrl` (`slug` and `crm_id` parameters) are not part of this model. `SLUG_TO_TYPE` and `CITY_SLUG_TO_NAME` are used only by them.
- `Favorites.FavoritesStorage`: ids are integers compared by value. `includes` on objects by reference is not modelled. The JSON round trip through localStorage is taken as identity.
- `Favorites.FavoritesStorage.Get`: a throwing `localStorage.getItem` reads as `[]` in the source. The model has no throwing read.
- Inherited `Object.prototype` keys of `TYPE_TO_SLUG` (a type named `constructor`) are not modelled.
- The DOM, rendering and the rest of the script (cards, galleries, analytics) are not part of this model.

## Findings

| source | as written | input that shows it | evidently intended | confidence | as-written member | corrected member |
|---|---|---|---|---|---|---|
| site-footer.js:211 | The session key is `btoa(cacheKey)` with every `+`, `/` and `=` removed. The removal merges distinct base64 texts. | `GET:/site/properties?page=1:` and `GET:/site/properties>page=1:` get the same session key: `?` (0x3F) and `>` (0x3E) differ only in bits that encode as `/` versus `+` at a group's last position. One request can then be answered with the other's cached data. | A session key that distinguishes cache keys, e.g. the full base64 text. | not executed | CacheKeys.SessionKeyAsWrittenCollides | CacheKeys.SessionKeyInjective |
