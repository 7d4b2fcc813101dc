/** The stored crawl record (`StoredCrawl` in apps/api/src/lib/crawl-redis.ts) and the three crawler
    options that the crawl store itself reads. */
module CrawlRecord {
  import opened Wrappers

  /** The loosely typed `crawlerOptions` object, reduced to the fields this core reads.
      `limit` is `Some` exactly when the option holds a number. */
  datatype CrawlerOptions = CrawlerOptions(
    limit: Option<int>,
    ignoreQueryParameters: bool,
    deduplicateSimilarURLs: bool)

  datatype StoredCrawl = StoredCrawl(
    originUrl: Option<string>,
    crawlerOptions: Option<CrawlerOptions>,
    teamId: string,
    robots: Option<string>,
    cancelled: Option<bool>,
    createdAt: int)

  /** `sc.crawlerOptions?.limit` when it is a number. */
  function LinkLimit(sc: StoredCrawl): Option<int> {
    if sc.crawlerOptions.Some? then sc.crawlerOptions.value.limit else None
  }

  /** `sc.crawlerOptions?.deduplicateSimilarURLs` is truthy. */
  predicate DeduplicatesSimilarURLs(sc: StoredCrawl) {
    sc.crawlerOptions.Some? && sc.crawlerOptions.value.deduplicateSimilarURLs
  }

  /** `!sc.crawlerOptions || sc.crawlerOptions.ignoreQueryParameters`. */
  predicate IgnoresQuery(sc: StoredCrawl) {
    sc.crawlerOptions.None? || sc.crawlerOptions.value.ignoreQueryParameters
  }
}
