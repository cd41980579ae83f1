/**
 * The cache's key namespace: one key family per kind of cached listings data, two
 * counter keys for the hit-rate metrics, the time-to-live of each family and the
 * `KEYS` patterns used for bulk invalidation.
 *
 * Every family is a fixed prefix followed by the identifier, so a key determines its
 * family and its identifier; the lemmas below state that and how the patterns relate
 * to the families.
 */
module CacheKeys {
  import opened Wrappers
  import opened Text

  const LISTINGS_PAGE_PREFIX: string := "listings:all:page:"
  const LISTING_DETAIL_PREFIX: string := "listings:detail:"
  const LISTINGS_SEARCH_PREFIX: string := "listings:search:"

  /** Counter keys of the hit-rate metrics. */
  const CACHE_HITS: string := "cache:metrics:hits"
  const CACHE_MISSES: string := "cache:metrics:misses"

  /** Time-to-live of each family, in seconds. */
  const TTL_LISTINGS_PAGE: int := 900
  const TTL_LISTING_DETAIL: int := 3600
  const TTL_LISTINGS_SEARCH: int := 900

  /** Invalidation patterns. */
  const ALL_LISTINGS: string := "listings:*"
  const ALL_LISTING_PAGES: string := "listings:all:page:*"
  const ALL_SEARCHES: string := "listings:search:*"

  /** The letters that tell the key spaces apart: the families share `listings:` and differ next. */
  lemma PrefixLetters()
    ensures "listings:" <= LISTINGS_PAGE_PREFIX && LISTINGS_PAGE_PREFIX[9] == 'a'
    ensures "listings:" <= LISTING_DETAIL_PREFIX && LISTING_DETAIL_PREFIX[9] == 'd'
    ensures "listings:" <= LISTINGS_SEARCH_PREFIX && LISTINGS_SEARCH_PREFIX[9] == 's'
    ensures CACHE_HITS[0] == 'c' && CACHE_MISSES[0] == 'c'
  {
  }

  /** The key of one page of the listings list; the page number reads back from the key. */
  function ListingsPage(page: int): (k: string)
    ensures LISTINGS_PAGE_PREFIX <= k
    ensures DecimalToInt(k[|LISTINGS_PAGE_PREFIX|..]) == Some(page)
  {
    var k := LISTINGS_PAGE_PREFIX + IntToDecimal(page);
    assert k[|LISTINGS_PAGE_PREFIX|..] == IntToDecimal(page);
    DecimalRoundTrip(page);
    k
  }

  /** The key of one listing's details; the identifier is the rest of the key, verbatim. */
  function ListingDetail(id: string): (k: string)
    ensures LISTING_DETAIL_PREFIX <= k
    ensures k[|LISTING_DETAIL_PREFIX|..] == id
  {
    LISTING_DETAIL_PREFIX + id
  }

  /** The key of one search result, by the hash of its parameters. */
  function ListingsSearch(searchHash: string): (k: string)
    ensures LISTINGS_SEARCH_PREFIX <= k
    ensures k[|LISTINGS_SEARCH_PREFIX|..] == searchHash
  {
    LISTINGS_SEARCH_PREFIX + searchHash
  }

  /** The keys the key builder's own examples expect. */
  lemma KeyExamples()
    ensures ListingsPage(1) == "listings:all:page:1"
    ensures ListingsPage(5) == "listings:all:page:5"
    ensures ListingsPage(100) == "listings:all:page:100"
    ensures ListingDetail("abc123") == "listings:detail:abc123"
    ensures ListingsSearch("a7f3c2") == "listings:search:a7f3c2"
  {
  }

  /** Distinct pages, listings and searches get distinct keys. */
  lemma KeysInjective(p: int, q: int, a: string, b: string)
    ensures ListingsPage(p) == ListingsPage(q) <==> p == q
    ensures ListingDetail(a) == ListingDetail(b) <==> a == b
    ensures ListingsSearch(a) == ListingsSearch(b) <==> a == b
  {
    if ListingsPage(p) == ListingsPage(q) {
      assert Some(p) == Some(q);
    }
    if ListingDetail(a) == ListingDetail(b) {
      assert a == ListingDetail(a)[|LISTING_DETAIL_PREFIX|..];
    }
    if ListingsSearch(a) == ListingsSearch(b) {
      assert a == ListingsSearch(a)[|LISTINGS_SEARCH_PREFIX|..];
    }
  }

  /** No key belongs to two families, and no family key is a metric counter. */
  lemma FamiliesDisjoint(page: int, id: string, searchHash: string)
    ensures ListingsPage(page) != ListingDetail(id)
    ensures ListingsPage(page) != ListingsSearch(searchHash)
    ensures ListingDetail(id) != ListingsSearch(searchHash)
    ensures ListingsPage(page) !in {CACHE_HITS, CACHE_MISSES}
    ensures ListingDetail(id) !in {CACHE_HITS, CACHE_MISSES}
    ensures ListingsSearch(searchHash) !in {CACHE_HITS, CACHE_MISSES}
  {
    // The families already differ at character 9 and the counters at character 0.
    PrefixLetters();
    var p, d, q := ListingsPage(page), ListingDetail(id), ListingsSearch(searchHash);
    assert p[9] == 'a' && d[9] == 'd' && q[9] == 's';
    assert p[0] == d[0] == q[0] == 'l';
  }

  /**
   * What each invalidation pattern matches: exactly the keys with its family's prefix
   * (every key under `listings:` for the catch-all pattern).
   */
  lemma PatternsMatchFamilies(k: string)
    ensures GlobMatch(ALL_LISTING_PAGES, k) <==> LISTINGS_PAGE_PREFIX <= k
    ensures GlobMatch(ALL_SEARCHES, k) <==> LISTINGS_SEARCH_PREFIX <= k
    ensures GlobMatch(ALL_LISTINGS, k) <==> "listings:" <= k
  {
    assert ALL_LISTING_PAGES[..|ALL_LISTING_PAGES| - 1] == LISTINGS_PAGE_PREFIX;
    assert ALL_SEARCHES[..|ALL_SEARCHES| - 1] == LISTINGS_SEARCH_PREFIX;
    assert ALL_LISTINGS[..|ALL_LISTINGS| - 1] == "listings:";
  }

  /**
   * The page pattern matches every page key and nothing else of the cache; the search
   * pattern likewise for search keys; the catch-all pattern matches every family but
   * neither counter.
   */
  lemma PatternsCover(page: int, id: string, searchHash: string)
    ensures GlobMatch(ALL_LISTING_PAGES, ListingsPage(page))
    ensures !GlobMatch(ALL_LISTING_PAGES, ListingDetail(id))
    ensures !GlobMatch(ALL_LISTING_PAGES, ListingsSearch(searchHash))
    ensures GlobMatch(ALL_SEARCHES, ListingsSearch(searchHash))
    ensures !GlobMatch(ALL_SEARCHES, ListingDetail(id))
    ensures !GlobMatch(ALL_SEARCHES, ListingsPage(page))
    ensures GlobMatch(ALL_LISTINGS, ListingsPage(page))
    ensures GlobMatch(ALL_LISTINGS, ListingDetail(id))
    ensures GlobMatch(ALL_LISTINGS, ListingsSearch(searchHash))
  {
    PageKeyMatches(page);
    DetailKeyMatches(id);
    SearchKeyMatches(searchHash);
  }

  lemma PageKeyMatches(page: int)
    ensures var k := ListingsPage(page);
      GlobMatch(ALL_LISTING_PAGES, k) && !GlobMatch(ALL_SEARCHES, k) && GlobMatch(ALL_LISTINGS, k)
  {
    var k := ListingsPage(page);
    PatternsMatchFamilies(k);
    PrefixLetters();
    assert k[9] == 'a';
  }

  lemma DetailKeyMatches(id: string)
    ensures var k := ListingDetail(id);
      !GlobMatch(ALL_LISTING_PAGES, k) && !GlobMatch(ALL_SEARCHES, k) && GlobMatch(ALL_LISTINGS, k)
  {
    var k := ListingDetail(id);
    PatternsMatchFamilies(k);
    PrefixLetters();
    assert k[9] == 'd';
  }

  lemma SearchKeyMatches(searchHash: string)
    ensures var k := ListingsSearch(searchHash);
      !GlobMatch(ALL_LISTING_PAGES, k) && GlobMatch(ALL_SEARCHES, k) && GlobMatch(ALL_LISTINGS, k)
  {
    var k := ListingsSearch(searchHash);
    PatternsMatchFamilies(k);
    PrefixLetters();
    assert k[9] == 's';
  }

  /** The counters lie outside every invalidation pattern. */
  lemma CountersOutsidePatterns()
    ensures !GlobMatch(ALL_LISTINGS, CACHE_HITS) && !GlobMatch(ALL_LISTINGS, CACHE_MISSES)
    ensures !GlobMatch(ALL_LISTING_PAGES, CACHE_HITS) && !GlobMatch(ALL_LISTING_PAGES, CACHE_MISSES)
    ensures !GlobMatch(ALL_SEARCHES, CACHE_HITS) && !GlobMatch(ALL_SEARCHES, CACHE_MISSES)
  {
    PatternsMatchFamilies(CACHE_HITS);
    PatternsMatchFamilies(CACHE_MISSES);
    PrefixLetters();
  }
}
