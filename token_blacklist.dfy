/**
 * The revoked-token list: logging out stores `token:blacklist:<jti>` with an expiry
 * equal to the token's remaining lifetime, and a token is rejected while that key
 * exists. Without a Redis handle nothing is stored and no token is rejected.
 *
 * Neither operation catches errors: a failing Redis command rejects the operation's
 * promise (`Failed`).
 */
module TokenBlacklist {
  import opened Wrappers
  import opened Text
  import opened Json
  import opened Backend
  import opened CacheKeys
  import opened CacheService

  const BLACKLIST_PREFIX: string := "token:blacklist:"

  /** The key marking a token as revoked; the token id is the rest of the key, verbatim. */
  function BlacklistKey(jti: string): (k: string)
    ensures BLACKLIST_PREFIX <= k
    ensures k[|BLACKLIST_PREFIX|..] == jti
  {
    BLACKLIST_PREFIX + jti
  }

  /** The value stored under a blacklist key. */
  const MARK: string := "1"

  /**
   * `blacklistToken`: with a positive lifetime, `SET key "1" EX ttl`; otherwise nothing
   * at all. The operation settles as the command does.
   */
  function Blacklist(db: Db, jti: string, ttlSeconds: int, fail: bool): Run<Reply<()>>
  {
    if ttlSeconds <= 0 then Run(db, Ok(()), [])
    else
      var key := BlacklistKey(jti);
      var issued := [SET(key, MARK, ttlSeconds)];
      if fail then Run(db, Failed, issued)
      else Run(Store(db, key, ttlSeconds, MARK).value, Ok(()), issued)
  }

  method BlacklistToken(redis: Client?, jti: string, ttlSeconds: int, fail: bool) returns (r: Reply<()>)
    modifies Footprint(redis)
    ensures redis == null ==> r == Ok(())
    ensures redis != null ==>
      var run := Blacklist(old(redis.server.db), jti, ttlSeconds, fail);
      r == run.value && redis.server.db == run.db && redis.sent == old(redis.sent) + run.sent
  {
    if redis == null {
      return Ok(());
    }
    if ttlSeconds <= 0 {
      assert redis.sent == redis.sent + [];
      return Ok(());
    }
    r := redis.Set(BlacklistKey(jti), MARK, ttlSeconds, fail);
  }

  /** `isTokenBlacklisted` on a given store: the key reads back as something other than `null`. */
  function Blacklisted(db: Db, jti: string): bool
  {
    Read(db, BlacklistKey(jti)) != JNull
  }

  method IsTokenBlacklisted(redis: Client?, jti: string, fail: bool) returns (r: Reply<bool>)
    modifies Footprint(redis)
    ensures redis == null ==> r == Ok(false)
    ensures redis != null ==>
      redis.server.db == old(redis.server.db) &&
      redis.sent == old(redis.sent) + [GET(BlacklistKey(jti))] &&
      r == if fail then Failed else Ok(Blacklisted(old(redis.server.db), jti))
  {
    if redis == null {
      return Ok(false);
    }
    var result := redis.Get(BlacklistKey(jti), fail);
    if result.Failed? {
      return Failed;
    }
    r := Ok(result.value != JNull);
  }

  /**
   * A token is blacklisted exactly when its key is stored, unless the stored text is
   * literally `null` (which the client reads back as `null`); the blacklist never writes
   * that text.
   */
  lemma BlacklistedIffStored(db: Db, jti: string)
    ensures Blacklisted(db, jti) <==> BlacklistKey(jti) in db && db[BlacklistKey(jti)].text != "null"
  {
    if BlacklistKey(jti) in db {
      DeserializeNull(db[BlacklistKey(jti)].text);
    }
  }

  /**
   * Blacklisting with a positive lifetime stores the mark under the token's key with that
   * expiry, and nothing else changes; a non-positive lifetime or a failure changes nothing.
   */
  lemma BlacklistStores(db: Db, jti: string, ttlSeconds: int, fail: bool)
    ensures var after := Blacklist(db, jti, ttlSeconds, fail).db;
      if ttlSeconds <= 0 || fail then after == db
      else after == db[BlacklistKey(jti) := Entry(MARK, Some(ttlSeconds))]
  {
  }

  /** Round trip: once blacklisted, the token is reported as blacklisted. */
  lemma BlacklistThenCheck(db: Db, jti: string, ttlSeconds: int)
    requires ttlSeconds > 0
    ensures Blacklisted(Blacklist(db, jti, ttlSeconds, false).db, jti)
  {
    var after := Blacklist(db, jti, ttlSeconds, false).db;
    assert after[BlacklistKey(jti)].text == MARK;
    BlacklistedIffStored(after, jti);
  }

  /** Blacklisting one token never changes whether another one is blacklisted. */
  lemma BlacklistIsolated(db: Db, jti: string, other: string, ttlSeconds: int, fail: bool)
    requires other != jti
    ensures Blacklisted(Blacklist(db, jti, ttlSeconds, fail).db, other) == Blacklisted(db, other)
  {
  }

  /** Blacklist keys lie outside the cache: no listings key, counter or pattern reaches them. */
  lemma BlacklistOutsideCache(jti: string, page: int, id: string, searchHash: string)
    ensures BlacklistKey(jti) != ListingsPage(page)
    ensures BlacklistKey(jti) != ListingDetail(id)
    ensures BlacklistKey(jti) != ListingsSearch(searchHash)
    ensures !IsCounterKey(BlacklistKey(jti))
    ensures !MatchesAny(INVALIDATED, BlacklistKey(jti))
  {
    var k := BlacklistKey(jti);
    assert k[0] == 't';
    assert ListingsPage(page)[0] == 'l' && ListingDetail(id)[0] == 'l' && ListingsSearch(searchHash)[0] == 'l';
    assert CACHE_HITS[0] == 'c' && CACHE_MISSES[0] == 'c';
    InvalidatedFamilies(k);
    assert LISTINGS_PAGE_PREFIX[0] == 'l' && LISTINGS_SEARCH_PREFIX[0] == 'l';
  }

  /** A cache lookup never revokes or restores a token. */
  lemma ReadLeavesBlacklist(db: Db, jti: string, key: string, f: ReadFaults)
    ensures Blacklisted(ReadThrough(db, key, f).db, jti) == Blacklisted(db, jti)
  {
    BlacklistOutsideCache(jti, 0, "", "");
    ReadKeepsEntries(db, key, f, BlacklistKey(jti));
  }

  /** Nor does a cache write, in any of the three families. */
  lemma WriteLeavesBlacklist(db: Db, jti: string, page: int, id: string, searchHash: string, data: Json, fail: bool)
    ensures Blacklisted(WriteThrough(db, ListingsPage(page), TTL_LISTINGS_PAGE, data, fail).db, jti)
      == Blacklisted(db, jti)
    ensures Blacklisted(WriteThrough(db, ListingDetail(id), TTL_LISTING_DETAIL, data, fail).db, jti)
      == Blacklisted(db, jti)
    ensures Blacklisted(WriteThrough(db, ListingsSearch(searchHash), TTL_LISTINGS_SEARCH, data, fail).db, jti)
      == Blacklisted(db, jti)
  {
    BlacklistOutsideCache(jti, page, id, searchHash);
  }

  /** Nor does an invalidation, bulk or single, whatever fails. */
  lemma InvalidateLeavesBlacklist(db: Db, jti: string, fs: seq<PatternFaults>, id: string, fail: bool)
    ensures Blacklisted(InvalidateFrom(db, INVALIDATED, fs, 0).db, jti) == Blacklisted(db, jti)
    ensures Blacklisted(DropDetail(db, id, fail).db, jti) == Blacklisted(db, jti)
  {
    var k := BlacklistKey(jti);
    BlacklistOutsideCache(jti, 0, id, "");
    InvalidateOnlyDrops(db, INVALIDATED, fs, 0);
    assert INVALIDATED[0..] == INVALIDATED;
  }
}
