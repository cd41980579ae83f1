/**
 * The listings cache: read-through lookups that keep hit/miss counters, writes with a
 * per-family expiry, bulk and single-key invalidation, and the hit-rate report.
 *
 * Every operation receives the handle `getRedisClient()` returned (null when Redis is
 * not configured), and one fault flag per Redis command it may issue. For each
 * operation a function gives its whole effect as a `Run`: the store afterwards, the
 * value returned and the commands issued in order; the method that performs the
 * operation through the handle is proved to have exactly that effect, and the lemmas
 * state what the source promises about the function.
 */
module CacheService {
  import opened Wrappers
  import opened Text
  import opened Json
  import opened Backend
  import opened CacheKeys

  // ---------------------------------------------------------------------------------------
  // Metric counters
  // ---------------------------------------------------------------------------------------

  datatype Metric = Hits | Misses

  function MetricKey(m: Metric): string
  {
    match m
    case Hits => CACHE_HITS
    case Misses => CACHE_MISSES
  }

  predicate IsCounterKey(k: string)
  {
    k == CACHE_HITS || k == CACHE_MISSES
  }

  /**
   * `incrementCacheMetric` (delta 1) and `decrementCacheMetric` (delta -1): the counter
   * moves by one; a failing command is logged and swallowed, leaving the store as it was.
   */
  function Bump(db: Db, m: Metric, delta: int, fail: bool): (r: Db)
    ensures r.Keys == db.Keys || r.Keys == db.Keys + {MetricKey(m)}
    ensures forall k :: k in db && k != MetricKey(m) ==> r[k] == db[k]
    ensures !fail && Counter(db, MetricKey(m)).Some? ==>
      Counter(r, MetricKey(m)) == Some(Counter(db, MetricKey(m)).value + delta)
    ensures fail || Counter(db, MetricKey(m)).None? ==> r == db
  {
    var a := Add(db, MetricKey(m), delta);
    if fail || a.Failed? then db else a.value
  }

  method IncrementCacheMetric(redis: Client?, m: Metric, fail: bool)
    modifies Footprint(redis)
    ensures redis != null ==>
      redis.server.db == Bump(old(redis.server.db), m, 1, fail) &&
      redis.sent == old(redis.sent) + [INCR(MetricKey(m))]
  {
    if redis == null {
      return;
    }
    var _ := redis.Incr(MetricKey(m), fail);
  }

  method DecrementCacheMetric(redis: Client?, m: Metric, fail: bool)
    modifies Footprint(redis)
    ensures redis != null ==>
      redis.server.db == Bump(old(redis.server.db), m, -1, fail) &&
      redis.sent == old(redis.sent) + [DECR(MetricKey(m))]
  {
    if redis == null {
      return;
    }
    var _ := redis.Decr(MetricKey(m), fail);
  }

  // ---------------------------------------------------------------------------------------
  // Read-through lookups
  // ---------------------------------------------------------------------------------------

  /** Which of the commands of one lookup fail. */
  datatype ReadFaults = ReadFaults(incrMisses: bool, get: bool, incrHits: bool, decrMisses: bool)

  const NO_READ_FAULTS: ReadFaults := ReadFaults(false, false, false, false)

  /**
   * One lookup: count a miss, fetch the key, and if the value fetched is truthy turn the
   * miss into a hit (one more hit, one miss less). The fetched value is returned as it
   * is, `null` for a missing key; a failed fetch is reported as `null` too.
   */
  function ReadThrough(db: Db, key: string, f: ReadFaults): Run<Json>
  {
    var counted := Bump(db, Misses, 1, f.incrMisses);
    var issued := [INCR(CACHE_MISSES), GET(key)];
    if f.get then Run(counted, JNull, issued)
    else
      var cached := Read(counted, key);
      if Truthy(cached) then
        Run(Bump(Bump(counted, Hits, 1, f.incrHits), Misses, -1, f.decrMisses), cached,
            issued + [INCR(CACHE_HITS), DECR(CACHE_MISSES)])
      else Run(counted, cached, issued)
  }

  /** The lookup shared by the three `getCached...` operations. */
  method ReadCached(redis: Client?, key: string, f: ReadFaults) returns (cached: Json)
    modifies Footprint(redis)
    ensures redis == null ==> cached == JNull
    ensures redis != null ==>
      var run := ReadThrough(old(redis.server.db), key, f);
      cached == run.value && redis.server.db == run.db && redis.sent == old(redis.sent) + run.sent
  {
    if redis == null {
      return JNull;
    }
    ghost var start := redis.sent;
    IncrementCacheMetric(redis, Misses, f.incrMisses);
    var got := redis.Get(key, f.get);
    ghost var issued := [INCR(CACHE_MISSES), GET(key)];
    assert redis.sent == start + issued;
    if got.Failed? {
      return JNull;
    }
    cached := got.value;
    if Truthy(cached) {
      IncrementCacheMetric(redis, Hits, f.incrHits);
      DecrementCacheMetric(redis, Misses, f.decrMisses);
      SentAssoc(start, issued, [INCR(CACHE_HITS), DECR(CACHE_MISSES)]);
    }
  }

  method GetCachedListingsPage(redis: Client?, page: int, f: ReadFaults) returns (cached: Json)
    modifies Footprint(redis)
    ensures redis == null ==> cached == JNull
    ensures redis != null ==>
      var run := ReadThrough(old(redis.server.db), ListingsPage(page), f);
      cached == run.value && redis.server.db == run.db && redis.sent == old(redis.sent) + run.sent
  {
    cached := ReadCached(redis, ListingsPage(page), f);
  }

  method GetCachedListingDetail(redis: Client?, id: string, f: ReadFaults) returns (cached: Json)
    modifies Footprint(redis)
    ensures redis == null ==> cached == JNull
    ensures redis != null ==>
      var run := ReadThrough(old(redis.server.db), ListingDetail(id), f);
      cached == run.value && redis.server.db == run.db && redis.sent == old(redis.sent) + run.sent
  {
    cached := ReadCached(redis, ListingDetail(id), f);
  }

  method GetCachedSearch(redis: Client?, searchHash: string, f: ReadFaults) returns (cached: Json)
    modifies Footprint(redis)
    ensures redis == null ==> cached == JNull
    ensures redis != null ==>
      var run := ReadThrough(old(redis.server.db), ListingsSearch(searchHash), f);
      cached == run.value && redis.server.db == run.db && redis.sent == old(redis.sent) + run.sent
  {
    cached := ReadCached(redis, ListingsSearch(searchHash), f);
  }

  /** A lookup changes nothing but the two counters. */
  lemma ReadKeepsEntries(db: Db, key: string, f: ReadFaults, k: string)
    requires !IsCounterKey(k)
    ensures k in ReadThrough(db, key, f).db <==> k in db
    ensures k in db ==> ReadThrough(db, key, f).db[k] == db[k]
  {
  }

  /**
   * A lookup of a cache key returns what the store holds, deserialised, or `null` when
   * the fetch fails.
   */
  lemma ReadReturnsStored(db: Db, key: string, f: ReadFaults)
    requires !IsCounterKey(key)
    ensures ReadThrough(db, key, f).value == if f.get then JNull else Read(db, key)
  {
    var counted := Bump(db, Misses, 1, f.incrMisses);
    assert Read(counted, key) == Read(db, key);
  }

  /**
   * With integer counters and no failures, a lookup that finds a truthy value adds one
   * hit and leaves the misses as they were; any other lookup adds one miss and leaves
   * the hits as they were.
   */
  lemma ReadCounts(db: Db, key: string, hits: int, misses: int)
    requires !IsCounterKey(key)
    requires Counter(db, CACHE_HITS) == Some(hits) && Counter(db, CACHE_MISSES) == Some(misses)
    ensures var run := ReadThrough(db, key, NO_READ_FAULTS);
      if Truthy(Read(db, key)) then
        Counter(run.db, CACHE_HITS) == Some(hits + 1) && Counter(run.db, CACHE_MISSES) == Some(misses)
      else
        Counter(run.db, CACHE_HITS) == Some(hits) && Counter(run.db, CACHE_MISSES) == Some(misses + 1)
  {
    var counted := Bump(db, Misses, 1, false);
    assert Read(counted, key) == Read(db, key);
    BumpLeavesOther(db, Misses, 1, false, Hits);
    if Truthy(Read(db, key)) {
      HitCounts(counted, hits, misses + 1);
    }
  }

  /** The bookkeeping of a hit after the miss was counted: one more hit, one miss fewer. */
  lemma HitCounts(counted: Db, hits: int, misses: int)
    requires Counter(counted, CACHE_HITS) == Some(hits) && Counter(counted, CACHE_MISSES) == Some(misses)
    ensures var done := Bump(Bump(counted, Hits, 1, false), Misses, -1, false);
      Counter(done, CACHE_HITS) == Some(hits + 1) && Counter(done, CACHE_MISSES) == Some(misses - 1)
  {
    var hit := Bump(counted, Hits, 1, false);
    BumpLeavesOther(counted, Hits, 1, false, Misses);
    BumpLeavesOther(hit, Misses, -1, false, Hits);
  }

  /** Moving one counter leaves the other counter's value as it was. */
  lemma BumpLeavesOther(db: Db, m: Metric, delta: int, fail: bool, other: Metric)
    requires other != m
    ensures Counter(Bump(db, m, delta, fail), MetricKey(other)) == Counter(db, MetricKey(other))
  {
    assert MetricKey(other) != MetricKey(m);
  }

  /** A failed fetch still counts its miss, and only that. */
  lemma ReadErrorCountsMiss(db: Db, key: string, hits: int, misses: int)
    requires Counter(db, CACHE_HITS) == Some(hits) && Counter(db, CACHE_MISSES) == Some(misses)
    ensures var run := ReadThrough(db, key, ReadFaults(false, true, false, false));
      run.value == JNull &&
      Counter(run.db, CACHE_HITS) == Some(hits) && Counter(run.db, CACHE_MISSES) == Some(misses + 1) &&
      run.sent == [INCR(CACHE_MISSES), GET(key)]
  {
    var counted := Bump(db, Misses, 1, false);
    assert Counter(counted, CACHE_HITS) == Some(hits);
  }

  // ---------------------------------------------------------------------------------------
  // Writes
  // ---------------------------------------------------------------------------------------

  /**
   * One write: `SETEX key ttl JSON.stringify(data)`. A failure is swallowed and leaves
   * the store as it was.
   */
  function WriteThrough(db: Db, key: string, ttl: int, data: Json, fail: bool): Run<()>
  {
    var text := Stringify(data);
    var s := Store(db, key, ttl, text);
    Run(if fail || s.Failed? then db else s.value, (), [SETEX(key, ttl, text)])
  }

  /** The write shared by the three `setCached...` operations. */
  method WriteCached(redis: Client?, key: string, ttl: int, data: Json, fail: bool)
    modifies Footprint(redis)
    ensures redis != null ==>
      var run := WriteThrough(old(redis.server.db), key, ttl, data, fail);
      redis.server.db == run.db && redis.sent == old(redis.sent) + run.sent
  {
    if redis == null {
      return;
    }
    var _ := redis.SetEx(key, ttl, Stringify(data), fail);
  }

  method SetCachedListingsPage(redis: Client?, page: int, data: Json, fail: bool)
    modifies Footprint(redis)
    ensures redis != null ==>
      var run := WriteThrough(old(redis.server.db), ListingsPage(page), TTL_LISTINGS_PAGE, data, fail);
      redis.server.db == run.db && redis.sent == old(redis.sent) + run.sent
  {
    WriteCached(redis, ListingsPage(page), TTL_LISTINGS_PAGE, data, fail);
  }

  method SetCachedListingDetail(redis: Client?, id: string, data: Json, fail: bool)
    modifies Footprint(redis)
    ensures redis != null ==>
      var run := WriteThrough(old(redis.server.db), ListingDetail(id), TTL_LISTING_DETAIL, data, fail);
      redis.server.db == run.db && redis.sent == old(redis.sent) + run.sent
  {
    WriteCached(redis, ListingDetail(id), TTL_LISTING_DETAIL, data, fail);
  }

  method SetCachedSearch(redis: Client?, searchHash: string, data: Json, fail: bool)
    modifies Footprint(redis)
    ensures redis != null ==>
      var run := WriteThrough(old(redis.server.db), ListingsSearch(searchHash), TTL_LISTINGS_SEARCH, data, fail);
      redis.server.db == run.db && redis.sent == old(redis.sent) + run.sent
  {
    WriteCached(redis, ListingsSearch(searchHash), TTL_LISTINGS_SEARCH, data, fail);
  }

  /**
   * A successful write replaces the key's entry with the serialised value and the given
   * expiry and touches no other key; a failed one changes nothing.
   */
  lemma WriteStores(db: Db, key: string, ttl: int, data: Json, fail: bool)
    requires ttl > 0
    ensures var after := WriteThrough(db, key, ttl, data, fail).db;
      if fail then after == db
      else after.Keys == db.Keys + {key} && after[key] == Entry(Stringify(data), Some(ttl)) &&
           forall k :: k in db && k != key ==> after[k] == db[k]
  {
  }

  /**
   * Read after write: once a value is written under a cache key, the next lookup of
   * that key returns the value itself (or `null` if the fetch fails), and counts a hit
   * exactly when the value is truthy.
   */
  lemma WriteThenRead(db: Db, key: string, ttl: int, data: Json, f: ReadFaults)
    requires ttl > 0 && !IsCounterKey(key)
    ensures var stored := WriteThrough(db, key, ttl, data, false).db;
      ReadThrough(stored, key, f).value == if f.get then JNull else data
  {
    var stored := WriteThrough(db, key, ttl, data, false).db;
    ReadReturnsStored(stored, key, f);
    DeserializeStringify(data);
  }

  /** The same for each family, with the family's own expiry. */
  lemma FamilyRoundTrips(db: Db, page: int, id: string, searchHash: string, data: Json)
    ensures var k := ListingsPage(page);
      ReadThrough(WriteThrough(db, k, TTL_LISTINGS_PAGE, data, false).db, k, NO_READ_FAULTS).value == data
    ensures var k := ListingDetail(id);
      ReadThrough(WriteThrough(db, k, TTL_LISTING_DETAIL, data, false).db, k, NO_READ_FAULTS).value == data
    ensures var k := ListingsSearch(searchHash);
      ReadThrough(WriteThrough(db, k, TTL_LISTINGS_SEARCH, data, false).db, k, NO_READ_FAULTS).value == data
  {
    FamiliesDisjoint(page, id, searchHash);
    WriteThenRead(db, ListingsPage(page), TTL_LISTINGS_PAGE, data, NO_READ_FAULTS);
    WriteThenRead(db, ListingDetail(id), TTL_LISTING_DETAIL, data, NO_READ_FAULTS);
    WriteThenRead(db, ListingsSearch(searchHash), TTL_LISTINGS_SEARCH, data, NO_READ_FAULTS);
  }

  // ---------------------------------------------------------------------------------------
  // Bulk invalidation
  // ---------------------------------------------------------------------------------------

  /** The patterns `invalidateListingsCache` clears, in order. */
  const INVALIDATED: seq<string> := [ALL_LISTING_PAGES, ALL_SEARCHES]

  /** Which of the two commands issued for one pattern fail. */
  datatype PatternFaults = PatternFaults(keys: bool, del: bool)

  /** The faults for the pattern at `i`; none beyond the end of `fs`. */
  function FaultAt(fs: seq<PatternFaults>, i: nat): PatternFaults
  {
    if i < |fs| then fs[i] else PatternFaults(false, false)
  }

  /**
   * The loop of `invalidateListingsCache` from pattern `i` on: list the keys the
   * pattern matches and delete them if there are any. The first failing command ends
   * the loop (its error is caught outside the loop and logged).
   */
  function InvalidateFrom(db: Db, ps: seq<string>, fs: seq<PatternFaults>, i: nat): Run<()>
    requires i <= |ps|
    decreases |ps| - i
  {
    if i == |ps| then Run(db, (), [])
    else
      var f := FaultAt(fs, i);
      if f.keys then Run(db, (), [KEYS(ps[i])])
      else
        var ks := Matching(db, ps[i]);
        if ks == {} then
          var rest := InvalidateFrom(db, ps, fs, i + 1);
          Run(rest.db, (), [KEYS(ps[i])] + rest.sent)
        else if f.del then Run(db, (), [KEYS(ps[i]), DEL(ks)])
        else
          var rest := InvalidateFrom(Delete(db, ks).value, ps, fs, i + 1);
          Run(rest.db, (), [KEYS(ps[i]), DEL(ks)] + rest.sent)
  }

  method InvalidateListingsCache(redis: Client?, fs: seq<PatternFaults>)
    modifies Footprint(redis)
    ensures redis != null ==>
      var run := InvalidateFrom(old(redis.server.db), INVALIDATED, fs, 0);
      redis.server.db == run.db && redis.sent == old(redis.sent) + run.sent
  {
    if redis == null {
      return;
    }
    var patterns := [ALL_LISTING_PAGES, ALL_SEARCHES];
    ghost var whole := InvalidateFrom(redis.server.db, patterns, fs, 0);
    var i := 0;
    var failed := false;
    while i < |patterns| && !failed
      invariant 0 <= i <= |patterns|
      invariant !failed ==>
        var rest := InvalidateFrom(redis.server.db, patterns, fs, i);
        rest.db == whole.db && redis.sent + rest.sent == old(redis.sent) + whole.sent
      invariant failed ==> redis.server.db == whole.db && redis.sent == old(redis.sent) + whole.sent
      decreases |patterns| - i
    {
      var f := FaultAt(fs, i);
      ghost var before := redis.sent;
      ghost var db := redis.server.db;
      InvalidateStep(db, patterns, fs, i);
      var keys := redis.Keys(patterns[i], f.keys);
      if keys.Failed? {
        failed := true;
      } else if keys.value != {} {
        var deleted := redis.Del(keys.value, f.del);
        if deleted.Failed? {
          failed := true;
        } else {
          SentAssoc(before, [KEYS(patterns[i]), DEL(keys.value)],
            InvalidateFrom(redis.server.db, patterns, fs, i + 1).sent);
        }
        assert redis.sent == before + [KEYS(patterns[i]), DEL(keys.value)];
      } else {
        assert redis.sent == before + [KEYS(patterns[i])];
        SentAssoc(before, [KEYS(patterns[i])], InvalidateFrom(db, patterns, fs, i + 1).sent);
      }
      i := i + 1;
    }
  }

  lemma SentAssoc(a: seq<Command>, b: seq<Command>, c: seq<Command>)
    ensures a + b + c == a + (b + c)
  {
  }

  /** One pattern's round of `InvalidateFrom`, case by case. */
  lemma InvalidateStep(db: Db, ps: seq<string>, fs: seq<PatternFaults>, i: nat)
    requires i < |ps|
    ensures var f := FaultAt(fs, i);
      var ks := Matching(db, ps[i]);
      var run := InvalidateFrom(db, ps, fs, i);
      (f.keys ==> run == Run(db, (), [KEYS(ps[i])])) &&
      (!f.keys && ks == {} ==>
        var rest := InvalidateFrom(db, ps, fs, i + 1);
        run == Run(rest.db, (), [KEYS(ps[i])] + rest.sent)) &&
      (!f.keys && ks != {} && f.del ==> run == Run(db, (), [KEYS(ps[i]), DEL(ks)])) &&
      (!f.keys && ks != {} && !f.del ==>
        var rest := InvalidateFrom(Delete(db, ks).value, ps, fs, i + 1);
        run == Run(rest.db, (), [KEYS(ps[i]), DEL(ks)] + rest.sent))
  {
  }

  /** Whether one of `ps` matches `k`. */
  predicate MatchesAny(ps: seq<string>, k: string)
  {
    |ps| > 0 && (GlobMatch(ps[0], k) || MatchesAny(ps[1..], k))
  }

  /** Invalidation only ever removes keys some pattern matches, and changes no value. */
  lemma {:induction false} InvalidateOnlyDrops(db: Db, ps: seq<string>, fs: seq<PatternFaults>, i: nat)
    requires i <= |ps|
    ensures var after := InvalidateFrom(db, ps, fs, i).db;
      after.Keys <= db.Keys &&
      (forall k :: k in after ==> after[k] == db[k]) &&
      (forall k :: k in db && k !in after ==> MatchesAny(ps[i..], k))
    decreases |ps| - i
  {
    if i < |ps| && !FaultAt(fs, i).keys {
      var ks := Matching(db, ps[i]);
      var next := if ks == {} || FaultAt(fs, i).del then db else Delete(db, ks).value;
      if ks == {} || !FaultAt(fs, i).del {
        InvalidateOnlyDrops(next, ps, fs, i + 1);
      }
      assert ps[i..][1..] == ps[i + 1..];
      var after := InvalidateFrom(db, ps, fs, i).db;
      forall k | k in db && k !in after
        ensures MatchesAny(ps[i..], k)
      {
        if k in next {
          assert MatchesAny(ps[i + 1..], k);
        } else {
          assert GlobMatch(ps[i], k);
        }
      }
    }
  }

  /**
   * With no failure, invalidation removes exactly the keys some pattern matches and
   * keeps every other entry as it was.
   */
  lemma {:induction false} InvalidateClears(db: Db, ps: seq<string>, i: nat)
    requires i <= |ps|
    ensures var after := InvalidateFrom(db, ps, [], i).db;
      forall k :: k in after <==> k in db && !MatchesAny(ps[i..], k)
    decreases |ps| - i
  {
    if i < |ps| {
      var ks := Matching(db, ps[i]);
      var next := if ks == {} then db else Delete(db, ks).value;
      InvalidateClears(next, ps, i + 1);
      assert ps[i..][1..] == ps[i + 1..];
    }
  }

  /** No invalidation ever sends `DEL` with no key, whatever fails. */
  lemma {:induction false} InvalidateNeverDeletesNothing(db: Db, ps: seq<string>, fs: seq<PatternFaults>, i: nat)
    requires i <= |ps|
    ensures forall c :: c in InvalidateFrom(db, ps, fs, i).sent && c.DEL? ==> c.keys != {}
    decreases |ps| - i
  {
    if i < |ps| && !FaultAt(fs, i).keys {
      var ks := Matching(db, ps[i]);
      if ks == {} {
        InvalidateNeverDeletesNothing(db, ps, fs, i + 1);
      } else if !FaultAt(fs, i).del {
        InvalidateNeverDeletesNothing(Delete(db, ks).value, ps, fs, i + 1);
      }
    }
  }

  /**
   * `invalidateListingsCache` with no failure: every page and search entry is gone,
   * every other entry (listing details, the counters, anything else) stays as it was.
   */
  lemma InvalidateListingsClears(db: Db)
    ensures var after := InvalidateFrom(db, INVALIDATED, [], 0).db;
      (forall k :: k in after <==>
         k in db && !(LISTINGS_PAGE_PREFIX <= k) && !(LISTINGS_SEARCH_PREFIX <= k)) &&
      (forall k :: k in after ==> after[k] == db[k])
  {
    InvalidateClears(db, INVALIDATED, 0);
    InvalidateOnlyDrops(db, INVALIDATED, [], 0);
    forall k
      ensures MatchesAny(INVALIDATED, k) <==> LISTINGS_PAGE_PREFIX <= k || LISTINGS_SEARCH_PREFIX <= k
    {
      InvalidatedFamilies(k);
    }
    assert INVALIDATED[0..] == INVALIDATED;
  }

  /** The keys the bulk invalidation targets: those of the page and search families. */
  lemma InvalidatedFamilies(k: string)
    ensures MatchesAny(INVALIDATED, k) <==> LISTINGS_PAGE_PREFIX <= k || LISTINGS_SEARCH_PREFIX <= k
  {
    PatternsMatchFamilies(k);
    assert INVALIDATED[1..] == [ALL_SEARCHES];
    assert [ALL_SEARCHES][1..] == [];
    assert MatchesAny([ALL_SEARCHES], k) <==> GlobMatch(ALL_SEARCHES, k);
  }

  /**
   * After a successful invalidation a lookup of any page or search misses, while a
   * listing's details are still served.
   */
  lemma InvalidateThenRead(db: Db, page: int, id: string, searchHash: string)
    ensures var after := InvalidateFrom(db, INVALIDATED, [], 0).db;
      ReadThrough(after, ListingsPage(page), NO_READ_FAULTS).value == JNull &&
      ReadThrough(after, ListingsSearch(searchHash), NO_READ_FAULTS).value == JNull &&
      ReadThrough(after, ListingDetail(id), NO_READ_FAULTS).value == Read(db, ListingDetail(id))
  {
    var after := InvalidateFrom(db, INVALIDATED, [], 0).db;
    InvalidatedKeys(db, page, id, searchHash);
    FamiliesDisjoint(page, id, searchHash);
    ReadReturnsStored(after, ListingsPage(page), NO_READ_FAULTS);
    ReadReturnsStored(after, ListingsSearch(searchHash), NO_READ_FAULTS);
    ReadReturnsStored(after, ListingDetail(id), NO_READ_FAULTS);
  }

  /** The bulk invalidation removes the page and the search, and keeps the details as stored. */
  lemma InvalidatedKeys(db: Db, page: int, id: string, searchHash: string)
    ensures var after := InvalidateFrom(db, INVALIDATED, [], 0).db;
      ListingsPage(page) !in after && ListingsSearch(searchHash) !in after &&
      Read(after, ListingDetail(id)) == Read(db, ListingDetail(id))
  {
    InvalidateListingsClears(db);
    PatternsCover(page, id, searchHash);
    PatternsMatchFamilies(ListingDetail(id));
  }

  /**
   * An error while listing the page keys ends the invalidation at once: the search
   * keys are not even listed, and nothing is deleted.
   */
  lemma InvalidateStopsAtFirstError(db: Db, fs: seq<PatternFaults>)
    requires FaultAt(fs, 0).keys
    ensures InvalidateFrom(db, INVALIDATED, fs, 0) == Run(db, (), [KEYS(ALL_LISTING_PAGES)])
  {
  }

  // ---------------------------------------------------------------------------------------
  // Single-key invalidation
  // ---------------------------------------------------------------------------------------

  /** `invalidateListingDetail`: `DEL` of the one key; a failure is swallowed. */
  function DropDetail(db: Db, id: string, fail: bool): Run<()>
  {
    var key := ListingDetail(id);
    Run(if fail then db else Delete(db, {key}).value, (), [DEL({key})])
  }

  method InvalidateListingDetail(redis: Client?, id: string, fail: bool)
    modifies Footprint(redis)
    ensures redis != null ==>
      var run := DropDetail(old(redis.server.db), id, fail);
      redis.server.db == run.db && redis.sent == old(redis.sent) + run.sent
  {
    if redis == null {
      return;
    }
    var _ := redis.Del({ListingDetail(id)}, fail);
  }

  /** Without failure exactly that listing's details are gone; the next lookup of them misses. */
  lemma DropDetailIsExact(db: Db, id: string)
    ensures var after := DropDetail(db, id, false).db;
      (forall k :: k in after <==> k in db && k != ListingDetail(id)) &&
      (forall k :: k in after ==> after[k] == db[k]) &&
      ReadThrough(after, ListingDetail(id), NO_READ_FAULTS).value == JNull
  {
    var after := DropDetail(db, id, false).db;
    FamiliesDisjoint(0, id, "");
    ReadReturnsStored(after, ListingDetail(id), NO_READ_FAULTS);
  }

  // ---------------------------------------------------------------------------------------
  // Metrics report
  // ---------------------------------------------------------------------------------------

  /**
   * The report: the two counters as fetched (`null` when a counter key is absent) and
   * the hit rate, a percentage rounded to two decimals and held here in hundredths of
   * a percent (8333 stands for 83.33).
   */
  datatype Metrics = Metrics(hits: Json, misses: Json, hitRate: int)

  /** A fetched counter in arithmetic: its number, 0 for `null`. */
  function AsNumber(j: Json): int
  {
    match j
    case JNum(n) => n
    case _ => 0
  }

  /**
   * `Math.round(hits / total * 100 * 100) / 100` in hundredths: the integer nearest to
   * 10000 * hits / total, halves rounded up; 0 when the total is not positive.
   */
  function HitRate(hits: int, misses: int): (r: int)
    ensures hits + misses <= 0 ==> r == 0
    ensures hits + misses > 0 ==>
      var total := hits + misses;
      -total < 2 * total * r - 20000 * hits <= total
  {
    var total := hits + misses;
    if total > 0 then (20000 * hits + total) / (2 * total) else 0
  }

  /** The rounding bound pins the rate down: no other integer meets it. */
  lemma HitRateUnique(hits: int, misses: int, r: int)
    requires hits + misses > 0
    requires -(hits + misses) < 2 * (hits + misses) * r - 20000 * hits <= hits + misses
    ensures r == HitRate(hits, misses)
  {
    var total := hits + misses;
    var q := HitRate(hits, misses);
    // Both 2 * total * r and 2 * total * q lie in the half-open window (20000 * hits - total,
    // 20000 * hits + total], narrower than 2 * total: so r and q cannot be a whole step apart.
    if r > q {
      MultiplyMonotone(2 * total, r - q);
    } else if r < q {
      MultiplyMonotone(2 * total, q - r);
    }
  }

  lemma MultiplyMonotone(a: int, d: int)
    requires a > 0 && d >= 1
    ensures a * d >= a
  {
  }

  /** With non-negative counters the rate is a percentage: between 0 and 100.00. */
  lemma HitRateBounds(hits: int, misses: int)
    requires hits >= 0 && misses >= 0
    ensures 0 <= HitRate(hits, misses) <= 10000
  {
    var total := hits + misses;
    if total > 0 {
      var r := HitRate(hits, misses);
      if r < 0 {
        MultiplyMonotone(2 * total, -r);
      }
      if r > 10000 {
        MultiplyMonotone(2 * total, r - 10000);
      }
    }
  }

  lemma HitRateExamples()
    ensures HitRate(850, 150) == 8500
    ensures HitRate(100, 20) == 8333
    ensures HitRate(0, 0) == 0
  {
  }

  function MetricsOf(hits: Json, misses: Json): Metrics
  {
    Metrics(hits, misses, HitRate(AsNumber(hits), AsNumber(misses)))
  }

  /** Which of the two fetches of the report fail. */
  datatype MetricsFaults = MetricsFaults(hits: bool, misses: bool)

  /**
   * `getCacheMetrics`: both counters are fetched together; if either fetch fails the
   * report is `null`.
   */
  function ReadMetrics(db: Db, f: MetricsFaults): Run<Option<Metrics>>
  {
    var issued := [GET(CACHE_HITS), GET(CACHE_MISSES)];
    if f.hits || f.misses then Run(db, None, issued)
    else Run(db, Some(MetricsOf(Read(db, CACHE_HITS), Read(db, CACHE_MISSES))), issued)
  }

  method GetCacheMetrics(redis: Client?, f: MetricsFaults) returns (r: Option<Metrics>)
    modifies Footprint(redis)
    ensures redis == null ==> r == None
    ensures redis != null ==>
      var run := ReadMetrics(old(redis.server.db), f);
      r == run.value && redis.server.db == run.db && redis.sent == old(redis.sent) + run.sent
  {
    if redis == null {
      return None;
    }
    var hits := redis.Get(CACHE_HITS, f.hits);
    var misses := redis.Get(CACHE_MISSES, f.misses);
    if hits.Failed? || misses.Failed? {
      return None;
    }
    r := Some(MetricsOf(hits.value, misses.value));
  }

  /**
   * With both counters present, the report gives them as numbers and the rounded rate
   * of hits among all lookups counted.
   */
  lemma MetricsReport(db: Db, hits: int, misses: int)
    requires CACHE_HITS in db && CACHE_MISSES in db
    requires Counter(db, CACHE_HITS) == Some(hits) && Counter(db, CACHE_MISSES) == Some(misses)
    requires db[CACHE_HITS].text == IntToDecimal(hits) && db[CACHE_MISSES].text == IntToDecimal(misses)
    ensures ReadMetrics(db, MetricsFaults(false, false)).value
      == Some(Metrics(JNum(hits), JNum(misses), HitRate(hits, misses)))
  {
    DeserializeStringify(JNum(hits));
    DeserializeStringify(JNum(misses));
  }

  /**
   * An absent counter is reported as `null`, not 0 (the `|| 0` fallback is applied to the
   * pending fetch, which is always truthy), and weighs as 0 in the rate.
   */
  lemma MetricsAbsentCounters(db: Db)
    requires CACHE_HITS !in db && CACHE_MISSES !in db
    ensures ReadMetrics(db, MetricsFaults(false, false)).value == Some(Metrics(JNull, JNull, 0))
  {
  }

  /** Counters written by `INCR`/`DECR` always read back as numbers. */
  lemma CounterReadsBack(db: Db, m: Metric, delta: int)
    requires Counter(db, MetricKey(m)).Some?
    ensures Read(Bump(db, m, delta, false), MetricKey(m)) == JNum(Counter(db, MetricKey(m)).value + delta)
  {
    var n := Counter(db, MetricKey(m)).value + delta;
    DeserializeStringify(JNum(n));
    assert Stringify(JNum(n)) == IntToDecimal(n);
  }

  // ---------------------------------------------------------------------------------------
  // Monitoring
  // ---------------------------------------------------------------------------------------

  /** `getRedisInfo`'s record; the timestamp is supplied by the caller's clock. */
  datatype Info = Info(status: string, metrics: Option<Metrics>, timestamp: string)

  function RedisInfo(db: Db, f: MetricsFaults, now: string): Run<Option<Info>>
  {
    var m := ReadMetrics(db, f);
    Run(m.db, Some(Info("connected", m.value, now)), m.sent)
  }

  method GetRedisInfo(redis: Client?, f: MetricsFaults, now: string) returns (r: Option<Info>)
    modifies Footprint(redis)
    ensures redis == null ==> r == None
    ensures redis != null ==>
      var run := RedisInfo(old(redis.server.db), f, now);
      r == run.value && redis.server.db == run.db && redis.sent == old(redis.sent) + run.sent
  {
    if redis == null {
      return None;
    }
    var metrics := GetCacheMetrics(redis, f);
    r := Some(Info("connected", metrics, now));
  }

  /**
   * The info record is always there once Redis is configured: a failing metrics fetch
   * shows up as `metrics: null`, never as a missing record, and nothing is written.
   */
  lemma InfoAlwaysConnected(db: Db, f: MetricsFaults, now: string)
    ensures var run := RedisInfo(db, f, now);
      run.value.Some? && run.value.value.status == "connected" && run.value.value.timestamp == now &&
      (run.value.value.metrics.None? <==> f.hits || f.misses) && run.db == db
  {
  }
}
