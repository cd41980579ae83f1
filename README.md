# Listings cache and token blacklist over Upstash Redis — a Dafny model

This project models the Redis layer of the web app.

The **key builder** (`apps/web/lib/redis/cache-keys.ts`) provides:
- three key families: listings pages, listing details and search results;
- two hit/miss counter keys;
- the expiry of each family: 900, 3600 and 900 seconds;
- the `KEYS` patterns used for bulk invalidation.

The **cache service** (`apps/web/lib/redis/cache-service.ts`) provides:
- read-through lookups, which count a miss first and turn it into a hit when the fetched value is truthy;
- `SETEX` writes of `JSON.stringify`'d values;
- invalidation by pattern and by single key;
- the hit-rate report, and the monitoring record that wraps it;
- `createSearchHash`, which turns a search's parameters into a short base-36 key.

The **client accessor** (`apps/web/lib/redis/client.ts`) builds the Upstash handle on first use from two environment variables, then keeps it.

The **token blacklist** (`apps/web/lib/auth/token-blacklist.ts`) marks revoked JWT ids in the same store, with an expiry.

## Structure

- **Store.** The Redis store is a value `Db`: key ↦ (stored text, recorded expiry).
  - Each Redis command the core issues is a function on `Db`: `Read`, `Store`, `Matching`, `Delete`, `Add` in `Backend`.
  - A `Server` object holds the one store. A `Client` is an Upstash handle with one method per command.
  - Each command method takes a `fail` flag that stands for a network or server error. A failed command changes nothing and rejects.
  - A ghost log `sent` records every command issued.
- **Operations.** Every cache and blacklist operation takes the handle that `getRedisClient()` returned, which is null when Redis is not configured.
  - For each operation, a specification function gives its whole effect as a `Run`: the store afterwards, the value returned, and the commands issued.
  - The method that performs the operation through the handle is proved to have exactly that effect.
  - Lemmas state what the code promises about the specification functions.
- **Counters** are ordinary keys whose text is a decimal integer, as `INCR`/`DECR` keep them. Lemmas show that no cache, invalidation or blacklist key can reach them.
- **Stored values** are a small JSON type. `Json.Stringify` is `JSON.stringify`. `Json.Deserialize` is the client's automatic parse of fetched text: the text parsed, or the raw text when it does not parse. Their round trip is proved.

## Behaviour that follows the code rather than its comments

- **Hits.** A lookup counts a hit only when the fetched value is *truthy* (`if (cached)`). A cached `0`, `""` or `false` is returned, but it is counted as a miss.
- **Absent counters.** In `getCacheMetrics` the `|| 0` fallback is applied to the pending promise, which is always truthy. So an absent counter is reported as `null`, and it weighs 0 in the rate.
- **Listing details.** `invalidateListingsCache` clears only page and search keys. Listing details survive it: `CacheService.InvalidateThenRead` proves this.
- **Rejections.** `isTokenBlacklisted` tests `result !== null`. A key whose stored text is literally `null` would therefore read as not blacklisted; the blacklist itself only ever stores `1`. Neither blacklist function catches errors, so a failing command rejects.

## Model

| member | source | states |
|---|---|---|
| `CacheKeys.ListingsPage` | apps/web/lib/redis/cache-keys.ts:17 | the key is `listings:all:page:` followed by text that reads back as the page number |
| `CacheKeys.ListingDetail` | apps/web/lib/redis/cache-keys.ts:24 | the key is `listings:detail:` followed by the id verbatim, the empty id included |
| `CacheKeys.ListingsSearch` | apps/web/lib/redis/cache-keys.ts:31 | the key is `listings:search:` followed by the hash verbatim |
| `CacheKeys.KeyExamples` | apps/web/__tests__/lib/cache/cache-keys.test.ts:6-18 | pages 1, 5 and 100, the id `abc123` and the hash `a7f3c2` give exactly the expected key texts |
| `CacheKeys.KeysInjective` | apps/web/lib/redis/cache-keys.ts:17-31 | in each family, two keys are equal exactly when their page numbers, ids or hashes are |
| `CacheKeys.FamiliesDisjoint` | apps/web/lib/redis/cache-keys.ts:17-39 | no key belongs to two families, and no family key is a counter key |
| `CacheKeys.PatternsMatchFamilies` | apps/web/lib/redis/cache-keys.ts:60-69 | each invalidation pattern matches exactly the keys with its family prefix (`listings:` for the catch-all) |
| `CacheKeys.PatternsCover` | apps/web/lib/redis/cache-keys.ts:60-69 | the page pattern matches every page key and no detail or search key; the search pattern likewise; the catch-all matches all three families |
| `CacheKeys.CountersOutsidePatterns` | apps/web/lib/redis/cache-keys.ts:38-68 | neither counter key matches any invalidation pattern |
| `Text.Radix` | apps/web/lib/redis/cache-service.ts:287 | `toString(base)` gives at least one digit of the radix and no leading zero |
| `Text.DecimalRoundTrip` | apps/web/lib/redis/cache-keys.ts:17 | decimal rendering of an integer reads back as the same integer |
| `Json.Truthy` | apps/web/lib/redis/cache-service.ts:24 | the `if (cached)` test (also lines 66 and 110): the falsy fetched values are exactly `null`, `false`, `0` and `""` |
| `Json.Stringify` | apps/web/lib/redis/cache-service.ts:48 | `JSON.stringify` of a value (also lines 90, 134 and 276): literals, decimal integers, quoted and escaped strings, arrays and objects in member order, with no whitespace |
| `Json.Deserialize` | apps/web/lib/redis/cache-service.ts:22 | the client's automatic parse of a fetched text: the value when the whole text is one JSON value, otherwise the raw text as a string |
| `Json.DeserializeStringify` | apps/web/lib/redis/cache-service.ts:48 | text written by `JSON.stringify` and fetched through the client gives back the value itself |
| `Json.DeserializeNull` | apps/web/lib/auth/token-blacklist.ts:26 | a fetched text comes back as `null` exactly when it is the text `null` |
| `Backend.Read` | apps/web/lib/redis/cache-service.ts:22 | `GET` of a missing key gives `null` |
| `Backend.Store` | apps/web/lib/redis/cache-service.ts:48 | `SETEX` succeeds exactly for a positive expiry; it then sets the key's text and expiry and keeps every other key |
| `Backend.Matching` | apps/web/lib/redis/cache-service.ts:157 | `KEYS` returns exactly the stored keys the pattern matches |
| `Backend.Delete` | apps/web/lib/redis/cache-service.ts:159 | `DEL` fails with no key; otherwise it removes exactly the given keys and keeps the other values |
| `Backend.Add` | apps/web/lib/redis/cache-service.ts:194 | `INCR`/`DECR` fail on a non-integer value; otherwise the counter (0 when absent) moves by the delta, the expiry is kept and no other key changes |
| `Backend.Client.constructor` | apps/web/lib/redis/client.ts:24-27 | a handle is built on the URL and token given and has issued nothing |
| `Backend.Client.Get` | apps/web/lib/redis/cache-service.ts:22 | logs `GET`; returns the deserialised stored value, or rejects on failure; changes no key |
| `Backend.Client.SetEx` | apps/web/lib/redis/cache-service.ts:48 | logs `SETEX`; applies `Store` unless it fails; a failure changes nothing |
| `Backend.Client.Set` | apps/web/lib/auth/token-blacklist.ts:14 | logs `SET ... EX`; same effect as `SETEX` |
| `Backend.Client.Keys` | apps/web/lib/redis/cache-service.ts:157 | logs `KEYS`; returns the matching keys, or rejects on failure |
| `Backend.Client.Del` | apps/web/lib/redis/cache-service.ts:159 | logs `DEL`; applies `Delete` unless it fails; replies with the number of keys that existed |
| `Backend.Client.Incr` | apps/web/lib/redis/cache-service.ts:194 | logs `INCR`; applies `Add` with +1 unless it fails; replies with the new value |
| `Backend.Client.Decr` | apps/web/lib/redis/cache-service.ts:209 | logs `DECR`; applies `Add` with -1 unless it fails; replies with the new value |
| `RedisClient.IsRedisAvailable` | apps/web/lib/redis/client.ts:35-37 | true exactly when both URL and token are set and non-empty |
| `RedisClient.ClientAccessor.constructor` | apps/web/lib/redis/client.ts:11 | the memo starts empty |
| `RedisClient.ClientAccessor.GetRedisClient` | apps/web/lib/redis/client.ts:13-30 | a memoised handle is returned as is, whatever the environment; with no memo and missing credentials it returns null and memoises nothing; otherwise it builds a fresh handle on the credentials, memoises it and returns it |
| `RedisClient.MemoIsStable` | apps/web/lib/redis/client.ts:14 | once a call returns a handle, the next call returns the same handle, and a first call returns one exactly when Redis is available |
| `CacheService.MetricKey` | apps/web/lib/redis/cache-service.ts:193 | `'hits'` selects the hits counter and `'misses'` the misses counter (also line 208) |
| `CacheService.Bump` | apps/web/lib/redis/cache-service.ts:188-213 | a counter update moves only its counter, by the delta; a failure is swallowed and leaves the store as it was |
| `CacheService.IncrementCacheMetric` | apps/web/lib/redis/cache-service.ts:188-198 | issues `INCR` on the metric's key, with the effect of `Bump` by +1; no effect without a handle |
| `CacheService.DecrementCacheMetric` | apps/web/lib/redis/cache-service.ts:203-213 | issues `DECR` on the metric's key, with the effect of `Bump` by -1; no effect without a handle |
| `CacheService.ReadThrough` | apps/web/lib/redis/cache-service.ts:16-33 | the whole lookup: `INCR` of the misses, `GET`; a truthy value adds `INCR` hits and `DECR` misses; a failed `GET` gives null |
| `CacheService.ReadCached` | apps/web/lib/redis/cache-service.ts:16-33 | returns null without a handle and changes nothing; otherwise has exactly the effect, value and command sequence of `ReadThrough` |
| `CacheService.GetCachedListingsPage` | apps/web/lib/redis/cache-service.ts:13-34 | the read-through lookup of the page key |
| `CacheService.GetCachedListingDetail` | apps/web/lib/redis/cache-service.ts:57-76 | the read-through lookup of the detail key |
| `CacheService.GetCachedSearch` | apps/web/lib/redis/cache-service.ts:99-120 | the read-through lookup of the search key |
| `CacheService.ReadKeepsEntries` | apps/web/lib/redis/cache-service.ts:20-29 | a lookup changes no key other than the two counters |
| `CacheService.ReadReturnsStored` | apps/web/lib/redis/cache-service.ts:22-32 | a lookup returns the stored value deserialised (null when absent), and null when the fetch fails |
| `CacheService.ReadCounts` | apps/web/lib/redis/cache-service.ts:20-27 | without failures, a truthy value adds one hit and leaves misses as they were; anything else adds one miss and leaves hits as they were |
| `CacheService.HitCounts` | apps/web/lib/redis/cache-service.ts:24-26 | counting a hit after the miss adds one hit and takes the miss back |
| `CacheService.ReadErrorCountsMiss` | apps/web/lib/redis/cache-service.ts:19-33 | a failed fetch returns null, still counts its miss, counts no hit, and issues only `INCR` and `GET` |
| `CacheService.WriteThrough` | apps/web/lib/redis/cache-service.ts:43-51 | the whole write: one `SETEX` of the stringified value; a failure leaves the store as it was |
| `CacheService.WriteCached` | apps/web/lib/redis/cache-service.ts:43-51 | no effect without a handle; otherwise exactly the effect of `WriteThrough`: `SETEX` of the serialised value, with failures swallowed |
| `CacheService.SetCachedListingsPage` | apps/web/lib/redis/cache-service.ts:39-52 | writes the page key with expiry 900 |
| `CacheService.SetCachedListingDetail` | apps/web/lib/redis/cache-service.ts:81-94 | writes the detail key with expiry 3600 |
| `CacheService.SetCachedSearch` | apps/web/lib/redis/cache-service.ts:125-138 | writes the search key with expiry 900 |
| `CacheService.WriteStores` | apps/web/lib/redis/cache-service.ts:47-51 | a successful write replaces the key's entry with the serialised value and the expiry and keeps every other key; a failed one changes nothing |
| `CacheService.WriteThenRead` | apps/web/lib/redis/cache-service.ts:22-48 | read after write: the next lookup of the key returns the value written (null if the fetch fails) |
| `CacheService.FamilyRoundTrips` | apps/web/lib/redis/cache-service.ts:39-138 | the round trip holds for pages, details and searches with their own expiries |
| `CacheService.InvalidateFrom` | apps/web/lib/redis/cache-service.ts:151-166 | the pattern loop: `KEYS`, then `DEL` only when keys were found; the first failing command ends the loop |
| `CacheService.InvalidateListingsCache` | apps/web/lib/redis/cache-service.ts:144-167 | the loop over the two patterns has exactly the effect and command sequence of `InvalidateFrom`; no effect without a handle |
| `CacheService.InvalidateOnlyDrops` | apps/web/lib/redis/cache-service.ts:156-161 | whatever fails, invalidation only removes keys that some pattern matches and changes no value |
| `CacheService.InvalidateClears` | apps/web/lib/redis/cache-service.ts:156-161 | without failures, exactly the keys matched by some pattern are removed |
| `CacheService.InvalidateNeverDeletesNothing` | apps/web/lib/redis/cache-service.ts:158-160 | whatever fails, no `DEL` with an empty key list is ever issued |
| `CacheService.InvalidatedFamilies` | apps/web/lib/redis/cache-service.ts:151-154 | the two patterns target exactly the page and search keys |
| `CacheService.InvalidateListingsClears` | apps/web/lib/redis/cache-service.ts:151-161 | without failures, every page and search key is gone, and every other key (details, counters, anything else) keeps its value |
| `CacheService.InvalidatedKeys` | apps/web/lib/redis/cache-service.ts:151-161 | without failures, the page and the search key are gone and the detail key reads back as before |
| `CacheService.InvalidateThenRead` | apps/web/lib/redis/cache-service.ts:151-161 | after invalidation, page and search lookups miss, while detail lookups still return the stored details |
| `CacheService.InvalidateStopsAtFirstError` | apps/web/lib/redis/cache-service.ts:156-166 | an error listing the page keys ends the operation: the search keys are not listed and nothing is deleted |
| `CacheService.DropDetail` | apps/web/lib/redis/cache-service.ts:172-183 | one `DEL` of the detail key; a failure leaves the store as it was |
| `CacheService.InvalidateListingDetail` | apps/web/lib/redis/cache-service.ts:172-183 | issues one `DEL` of the detail key, with failures swallowed; no effect without a handle |
| `CacheService.DropDetailIsExact` | apps/web/lib/redis/cache-service.ts:177-178 | exactly the detail key is removed, other values are kept, and the next lookup of the detail misses |
| `CacheService.HitRate` | apps/web/lib/redis/cache-service.ts:232-238 | 0 for a non-positive total; otherwise the rate in hundredths of a percent is within half a unit of 10000·hits/total, with halves rounded up |
| `CacheService.HitRateUnique` | apps/web/lib/redis/cache-service.ts:238 | no other integer meets that rounding bound |
| `CacheService.HitRateBounds` | apps/web/lib/redis/cache-service.ts:233 | with non-negative counters the rate lies between 0 and 100.00 percent |
| `CacheService.HitRateExamples` | apps/web/__tests__/lib/cache/cache-service.test.ts:246-281 | 850/150 gives 85.00, 100/20 gives 83.33, and 0/0 gives 0 |
| `CacheService.AsNumber` | apps/web/lib/redis/cache-service.ts:232-233 | `hits as number` in arithmetic: a fetched number is itself, and `null` adds as 0 |
| `CacheService.ReadMetrics` | apps/web/lib/redis/cache-service.ts:218-244 | both counters are fetched; if either `GET` fails the report is null, else it holds the fetched values and their rate |
| `CacheService.GetCacheMetrics` | apps/web/lib/redis/cache-service.ts:218-244 | returns null without a handle; otherwise issues both `GET`s, changes nothing, and returns null if either fails, else the counters and their rate |
| `CacheService.MetricsReport` | apps/web/lib/redis/cache-service.ts:227-239 | with both counters stored, the report gives them as numbers together with their rounded rate |
| `CacheService.MetricsAbsentCounters` | apps/web/lib/redis/cache-service.ts:227-230 | absent counters are reported as null, not 0, and the rate is 0 |
| `CacheService.CounterReadsBack` | apps/web/lib/redis/cache-service.ts:194 | a counter written by `INCR`/`DECR` is fetched back as the number it holds |
| `CacheService.RedisInfo` | apps/web/lib/redis/cache-service.ts:249-267 | a `connected` record holding the metrics report, null when it failed, and the timestamp |
| `CacheService.GetRedisInfo` | apps/web/lib/redis/cache-service.ts:249-267 | returns null without a handle; otherwise a `connected` record holding the metrics report and the given timestamp |
| `CacheService.InfoAlwaysConnected` | apps/web/lib/redis/cache-service.ts:256-262 | with a handle the record is always there; a failed metrics fetch shows only as `metrics: null`; nothing is written |
| `SearchHash.CodeUnits` | apps/web/lib/redis/cache-service.ts:282 | a character gives one code unit, or a surrogate pair above U+FFFF |
| `SearchHash.Utf16` | apps/web/lib/redis/cache-service.ts:281-282 | every code unit lies below 0x10000, and there are one or two per character |
| `SearchHash.Utf16Injective` | apps/web/lib/redis/cache-service.ts:274 | distinct strings have distinct UTF-16 forms |
| `SearchHash.KeyOrder` | apps/web/lib/redis/cache-service.ts:274 | the default string comparison of `sort` is irreflexive, transitive and total |
| `SearchHash.Insert` | apps/web/lib/redis/cache-service.ts:274 | inserting into a sorted list keeps it sorted and adds exactly that element |
| `SearchHash.SortNames` | apps/web/lib/redis/cache-service.ts:274 | `sort()` yields a sorted permutation of the names |
| `SearchHash.SortedUnique` | apps/web/lib/redis/cache-service.ts:274 | two sorted arrangements of the same names are equal |
| `SearchHash.Names` | apps/web/lib/redis/cache-service.ts:274 | `Object.keys` lists each property's name in order |
| `SearchHash.Lookup` | apps/web/lib/redis/cache-service.ts:276 | `params[key]` is the value of the property with that name |
| `SearchHash.Fragments` | apps/web/lib/redis/cache-service.ts:275-276 | one `name=JSON.stringify(value)` fragment per sorted name |
| `SearchHash.Join` | apps/web/lib/redis/cache-service.ts:277 | `.join('&')` of the fragments |
| `SearchHash.Normalized` | apps/web/lib/redis/cache-service.ts:274-277 | the text hashed: the sorted names' fragments joined with `&` |
| `SearchHash.ToInt32` | apps/web/lib/redis/cache-service.ts:284 | `x & x` is the signed 32-bit value congruent to x modulo 2^32 |
| `SearchHash.ShiftLeft5` | apps/web/lib/redis/cache-service.ts:283 | `hash << 5`: a signed 32-bit result |
| `SearchHash.Step` | apps/web/lib/redis/cache-service.ts:283-284 | one round of the loop body: a signed 32-bit result |
| `SearchHash.StepIsTimes31` | apps/web/lib/redis/cache-service.ts:283-284 | `((hash << 5) - hash) + char`, truncated to 32 bits, is 31·hash + char modulo 2^32 |
| `SearchHash.HashUnits` | apps/web/lib/redis/cache-service.ts:280-285 | the accumulator stays a signed 32-bit integer |
| `SearchHash.HashCodeUnits` | apps/web/lib/redis/cache-service.ts:280-285 | the loop over the code units leaves in `hash` exactly the fold `HashUnits` of all of them |
| `SearchHash.HashOf` | apps/web/lib/redis/cache-service.ts:272-288 | the key of the parameters: base 36 of the absolute value of the fold over the normalised text's code units |
| `SearchHash.CreateSearchHash` | apps/web/lib/redis/cache-service.ts:272-288 | the loop computes `HashOf(params)`; the key has one to six base-36 digits |
| `SearchHash.HashLength` | apps/web/lib/redis/cache-service.ts:287 | the absolute 32-bit hash in base 36 has one to six digits |
| `SearchHash.EmptyParams` | apps/web/__tests__/lib/cache/cache-service.test.ts:340-344 | `{}` gives the key `0` |
| `SearchHash.HashOrderIndependent` | apps/web/lib/redis/cache-service.ts:274-277 | two objects with the same properties give the same key, whatever order the properties were added in |
| `SearchHash.NormalizedOrderIndependent` | apps/web/lib/redis/cache-service.ts:274-277 | such objects give the same `name=value&...` text |
| `TokenBlacklist.BlacklistKey` | apps/web/lib/auth/token-blacklist.ts:14 | the key is `token:blacklist:` followed by the token id verbatim |
| `TokenBlacklist.Blacklist` | apps/web/lib/auth/token-blacklist.ts:12-15 | nothing for a non-positive lifetime; otherwise one `SET key 1 EX ttl`, whose failure is the operation's failure |
| `TokenBlacklist.BlacklistToken` | apps/web/lib/auth/token-blacklist.ts:12-15 | no effect without a handle or with a non-positive lifetime; otherwise it issues `SET key 1 EX ttl` with exactly the effect of `Blacklist`, and a failure rejects |
| `TokenBlacklist.Blacklisted` | apps/web/lib/auth/token-blacklist.ts:25-26 | the key reads back as something other than `null` |
| `TokenBlacklist.IsTokenBlacklisted` | apps/web/lib/auth/token-blacklist.ts:23-27 | false without a handle; otherwise issues one `GET`, changes nothing, and returns whether the key reads back as non-null; a failure rejects |
| `TokenBlacklist.BlacklistedIffStored` | apps/web/lib/auth/token-blacklist.ts:25-26 | a token is blacklisted exactly when its key is stored with a text other than `null` |
| `TokenBlacklist.BlacklistStores` | apps/web/lib/auth/token-blacklist.ts:13-14 | blacklisting stores `1` with the lifetime as expiry and changes no other key; a non-positive lifetime or a failure changes nothing |
| `TokenBlacklist.BlacklistThenCheck` | apps/web/lib/auth/token-blacklist.ts:14-26 | once blacklisted, a token is reported as blacklisted |
| `TokenBlacklist.BlacklistIsolated` | apps/web/lib/auth/token-blacklist.ts:14 | blacklisting one token never changes another token's status |
| `TokenBlacklist.BlacklistOutsideCache` | apps/web/lib/auth/token-blacklist.ts:3 | blacklist keys are never cache keys or counter keys, and no invalidation pattern matches them |
| `TokenBlacklist.ReadLeavesBlacklist` | apps/web/lib/redis/cache-service.ts:20-29 | a cache lookup never changes any token's status |
| `TokenBlacklist.WriteLeavesBlacklist` | apps/web/lib/redis/cache-service.ts:48 | a cache write never changes any token's status |
| `TokenBlacklist.InvalidateLeavesBlacklist` | apps/web/lib/redis/cache-service.ts:156-178 | neither kind of invalidation changes any token's status, whatever fails |

## Left out

- The Upstash REST transport.
  - Each command is a function on the store, with a fault flag.
  - A failed command is taken to have had no effect. A write that reached Redis before the connection failed is not modelled.
- The expiry clock. The expiry is recorded with each entry, but time never passes, so "blacklisted until expiry" is modelled as "blacklisted".
- Concurrency. Each operation runs alone and to completion. The two fetches of `Promise.all` are issued in order.
- Floating point:
  - Numbers are integers.
  - Page numbers are integers; `${page}` of a fractional page is not modelled.
  - The hit rate is held exactly, in hundredths of a percent, instead of the float `Math.round(x * 100) / 100`.
- `Json.Stringify` renders integers as plain decimals. `JSON.stringify` switches to exponent notation from 10^21 on.
- `CacheKeys.ListingsPage` renders the page as plain decimals. `${page}` also switches to exponent notation from 10^21 on.
- `JSON.stringify` of `undefined`, functions, `NaN`, dates and `toJSON`: stored values are the JSON type only.
- `Json.Deserialize` parses more than `JSON.stringify` writes, but less than `JSON.parse` reads:
  - accepted beyond what `JSON.stringify` writes: `-0`, which reads as `0` and, like JavaScript's `-0`, is falsy; the escape `\/`; and `\u` escapes of any character that is not a surrogate;
  - refused, so the text comes back as a string, although `JSON.parse` reads it: whitespace, fractions, exponents, and `\u` escapes of surrogates, including escaped surrogate pairs.
- `console` logging.
- The `Date().toISOString()` timestamp of `getRedisInfo` is a parameter.
- `getRedisClient()` is called anew by every operation. The model passes the handle in instead; `RedisClient.MemoIsStable` shows that the handle no longer changes once built.
- `new Redis(...)` failing on a malformed URL.
- `@/lib/cache/client`, the handle the blacklist imports, is not part of this model. The blacklist takes a handle like the cache does.
- Redis `KEYS` glob syntax other than a literal prefix followed by one trailing `*`. The order of the keys `KEYS` returns is not modelled: they are a set.
- `Backend.Add`: no 64-bit overflow error. Counters are unbounded.
- `Backend.Counter`: accepts decimal text with leading zeros, which Redis refuses. No operation of the core stores such text.
- `CacheService.AsNumber`: a fetched counter that is neither a number nor `null` weighs 0. In JavaScript a string would concatenate, a boolean would add as 1 or 0, and an array or object would give a string or `NaN`. Counters written by `INCR`/`DECR` always read back as numbers (`CacheService.CounterReadsBack`).
- `TokenBlacklist.BlacklistToken`: a fractional `ttlSeconds`, which Redis would refuse, is not modelled; the lifetime is an integer.
- `SearchHash.HashOf`: distinct parameters are not proved to give distinct keys, because the 32-bit hash has collisions.
- Property values that are `undefined` in `createSearchHash`, which would render as the text `undefined`.
