/**
 The in-memory cache of the number list in server.js (`getNumbersCached`). The clock
 reading `now` and the freshly scraped list are parameters; the scrape runs only on
 a miss.
 */
module NumbersCache {
  import opened Optional
  import Listing

  /** How long, in milliseconds, a cached list is served. */
  const TtlMs: int := 30 * 1000

  /** `numbersCache`: the last list scraped (`null` before the first) and when it was stored. */
  datatype Cache = Cache(data: Option<seq<Listing.NumberRecord>>, ts: int)

  /** The cache as the server starts: `{ data: null, ts: 0 }`. */
  const Initial := Cache(None, 0)

  /** The cached list is served iff there is one and it is younger than the time to live; an empty list counts. */
  predicate Hit(c: Cache, now: int) {
    c.data.Some? && now - c.ts < TtlMs
  }

  /** What a call returns and the cache it leaves behind. */
  datatype Lookup = Lookup(numbers: seq<Listing.NumberRecord>, cache: Cache)

  /**
   `getNumbersCached` at time `now`, where `scraped` is what a scrape would return:
   a hit serves the stored list and leaves the cache alone, a miss serves `scraped`
   and stores it stamped with `now`, the time read before the scrape.
   */
  function GetNumbersCached(c: Cache, now: int, scraped: seq<Listing.NumberRecord>): (r: Lookup)
    ensures Hit(c, now) ==> r.numbers == c.data.value && r.cache == c
    ensures !Hit(c, now) ==> r.numbers == scraped && r.cache == Cache(Some(scraped), now)
    ensures r.cache.data == Some(r.numbers)
  {
    if Hit(c, now) then Lookup(c.data.value, c)
    else Lookup(scraped, Cache(Some(scraped), now))
  }

  /** The first call after start-up always scrapes (whatever the clock says). */
  lemma FirstCallScrapes(now: int, scraped: seq<Listing.NumberRecord>)
    ensures GetNumbersCached(Initial, now, scraped) == Lookup(scraped, Cache(Some(scraped), now))
  {
  }

  /**
   After a scrape at `t`, every call at a `now` before `t + 30000` is served the same
   list without scraping, and the cache stays as it is; from `t + 30000` on the next
   call scrapes again.
   */
  lemma {:induction false} ServedUntilExpiry(c: Cache, t: int, scraped: seq<Listing.NumberRecord>, now: int, other: seq<Listing.NumberRecord>)
    requires !Hit(c, t)
    ensures var after := GetNumbersCached(c, t, scraped).cache;
      && (now < t + TtlMs ==> GetNumbersCached(after, now, other) == Lookup(scraped, after))
      && (now >= t + TtlMs ==> GetNumbersCached(after, now, other) == Lookup(other, Cache(Some(other), now)))
  {
    var after := GetNumbersCached(c, t, scraped).cache;
    assert after == Cache(Some(scraped), t);
  }

  /** An empty scrape result is cached like any other. */
  lemma EmptyListIsCached(now: int)
    requires now < TtlMs
    ensures Hit(Cache(Some([]), 0), now)
  {
  }
}
