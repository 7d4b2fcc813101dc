# Crawl coordination store and engine fallback selector, in Dafny

This project models two pieces of the Firecrawl API server and proves properties of them.

**The crawl store** (`apps/api/src/lib/crawl-redis.ts`). A crawl keeps its state in Redis under
`crawl:<id>`:
- the stored crawl record;
- the set of job ids and the set of finished job ids;
- the list of successfully finished ids, in order;
- the `visited` set of URL forms already claimed;
- the `visited_unique` set of URLs actually locked;
- three flag keys: kickoff finished, finished, and pre-finished.

The model has these modules:
- `RedisStore.Store` is an in-memory class with maps of sets, lists and flag keys. Each method is
  one Redis command (SADD, SCARD, SMEMBERS, RPUSH, LREM -1, LLEN, LRANGE, SET, SETNX, GET,
  EXISTS), and each states its whole new state.
- `CrawlRedis` issues the same commands, in the same order, as each exported function of the
  file. Where the source short-circuits, so does the model: `isCrawlFinished` reads the kickoff
  flag only when the two counts agree. Every method is proved to do to its own crawl exactly what the matching function of
  `CrawlSpec` says, and to leave every other crawl untouched.
- `CrawlSpec` describes the state of one crawl as a value, together with the transition functions
  and the lemmas about them.
- `CrawlUrls` models URL canonicalisation and the near-duplicate closure as pure functions.

**The engine selector** (`apps/api/src/scraper/scrapeURL/engines/index.ts`). It has three parts:
- `EngineTable` holds the two constant tables: the feature flags with their priorities, and each
  engine's supported flags and quality.
- `Fallback.BuildFallbackList` follows `buildFallbackList` step by step: the candidate list and
  the cache splice, the priority sum and the threshold, the loop that scores and pushes engines,
  the positive-quality filter and the sort. It is proved to return exactly
  `FallbackSpec.FallbackList`.
- `FallbackSpec` holds the lemmas about that result.

Which optional engines a deployment enables is a `Deployment` parameter. In the source it is read
from environment variables. Whether a mock is supplied is a boolean of `Meta`.

Two behaviours of the code are easy to misread:
- **Forced engines are still filtered.** A forced engine list is sometimes described as used
  exactly as given. The code (engines/index.ts:399-433) still applies the threshold filter and
  the positive-quality filter to it, and skips only the sort. The model follows the code.
  `FallbackSpec.ForcedEngineDropped` shows the consequence: with only `screenshot` required,
  forcing `["playwright"]` returns an empty list.
- **A failure removes only one success.** The LREM with count -1 in `addCrawlJobDone` removes one
  occurrence. An id recorded successful twice stays listed once after a failure
  (`CrawlSpec.TwoSuccessesThenFailure`).

Determinism of the selector follows from `Fallback.BuildFallbackList`'s postcondition: the result
equals a function of its inputs.

## Model

| member | source | states |
|---|---|---|
| CrawlUrls.NormalizeURL | apps/api/src/lib/crawl-redis.ts:196-203 | the fragment is always cleared; the query is cleared exactly when the crawl has no crawler options or ignores query parameters, and is kept otherwise; scheme, host and path are unchanged |
| CrawlUrls.HostForms | apps/api/src/lib/crawl-redis.ts:208-217 | the pair is [with www., without www.]: a "www." host loses its first four characters in the second entry, any other host gains "www." in the first; the input itself is one of the two; each entry is the input with only its host changed, so scheme, path, query and fragment are kept |
| CrawlUrls.SchemeForms | apps/api/src/lib/crawl-redis.ts:219-231 | a scheme other than http/https gives the URL alone; an http(s) URL gives the http and the https form, in that order; each entry is the input with only its scheme changed, so host, path, query and fragment are kept |
| CrawlUrls.IndexDir | apps/api/src/lib/crawl-redis.ts:240-256 | the directory the four index-file forms share always ends in "/" |
| CrawlUrls.SplitIndexFile | apps/api/src/lib/crawl-redis.ts:244-251 | a path ending in "/index.html" or "/index.php" is its directory, ending in "/", followed by the index file name, which is what the `slice(0, -"index.html".length)` calls cut off |
| CrawlUrls.HtmlForm | apps/api/src/lib/crawl-redis.ts:240-256 | the path becomes the directory + "index.html" and nothing else changes; a path already naming index.html keeps the input |
| CrawlUrls.PhpForm | apps/api/src/lib/crawl-redis.ts:240-256 | the path becomes the directory + "index.php" and nothing else changes; a path already naming index.php keeps the input |
| CrawlUrls.SlashForm | apps/api/src/lib/crawl-redis.ts:240-256 | the path becomes the directory itself and nothing else changes; a path ending in "/" keeps the input |
| CrawlUrls.BareForm | apps/api/src/lib/crawl-redis.ts:240-256 | the path becomes the directory without its trailing slash and nothing else changes; the root "/" keeps "/"; "/index.html" and "/index.php" give the empty path, which a special scheme turns into "/"; a path with neither an index file nor a trailing slash keeps the input |
| CrawlUrls.PathForms | apps/api/src/lib/crawl-redis.ts:233-259 | exactly four forms: directory + "index.html", directory + "index.php", the directory, the directory without its trailing slash (root and empty-path rules as for `BareForm`); each differs from the input only in its path, so scheme, host, query and fragment are kept; the input itself sits at the slot its path shape selects (slash for "/" endings, html or php when the path already names that index file, bare otherwise) |
| CrawlUrls.PathFormKeepsScheme | apps/api/src/lib/crawl-redis.ts:233-259 | every index-file form keeps the scheme of the URL it comes from |
| CrawlUrls.PathFormsKeepInput | apps/api/src/lib/crawl-redis.ts:240-258 | in every branch the input URL is one of its four path forms |
| CrawlUrls.UniqueByHref | apps/api/src/lib/crawl-redis.ts:261 | `[...new Set(hrefs)]`: no two results share an href, every result comes from the input, and every input href is represented |
| CrawlUrls.GenerateURLPermutations | apps/api/src/lib/crawl-redis.ts:205-262 | definition of the near-duplicate closure: no two results share an href, each result is one of the host x scheme x path forms, and every such form is represented by its href; bounds and members are proved in `PermutationsBounded`, `NonHttpKeepsScheme`, `HttpReachesBothSchemes` and `ExampleSharedClosure` |
| CrawlUrls.PermutationsBounded | apps/api/src/lib/crawl-redis.ts:205-262 | the closure has no repeated href, at most 2 x 2 x 4 = 16 members, and contains the input's href |
| CrawlUrls.NonHttpKeepsScheme | apps/api/src/lib/crawl-redis.ts:219-223 | a non-http(s) URL keeps its scheme in every member, and the closure has at most 8 members |
| CrawlUrls.HttpReachesBothSchemes | apps/api/src/lib/crawl-redis.ts:219-231 | an http(s) URL reaches both the http and the https form of both host forms |
| CrawlUrls.EndsWithSlice | apps/api/src/lib/crawl-redis.ts:240-248 | `endsWith` holds exactly when the last characters of the path are the suffix |
| CrawlUrls.RootPathForms | apps/api/src/lib/crawl-redis.ts:240-243 | the root path "/" yields /index.html, /index.php, and "/" itself as both the slash and the bare form |
| CrawlUrls.ExampleSharedClosure | apps/api/src/lib/crawl-redis.ts:205-262 | http://www.a.com/x/index.html lies in the closure of http://a.com/x |
| RedisSemantics.LastIndexOf | apps/api/src/lib/crawl-redis.ts:95-99 | the index of the occurrence nearest the tail, or -1 exactly when the value is absent |
| RedisSemantics.LRemFromTail | apps/api/src/lib/crawl-redis.ts:95-99 | LREM with count -1 removes the occurrence nearest the tail and keeps every other element in order; an absent value leaves the list unchanged; the multiset loses exactly one copy |
| RedisSemantics.LRange | apps/api/src/lib/crawl-redis.ts:113-124 | the result is a contiguous slice of the list; in-range inclusive indices give `s[start..stop+1]`; the defaults 0, -1 give the whole list; a start past the end, or a non-negative stop before the start, gives []; a start with stop -1 or past the end gives the suffix from start; a negative start counts from the tail, with stop -1 or with a negative stop; a start before the head is clamped to 0, for every stop; a negative stop counts from the tail and closes the slice there, and one before the head gives [] |
| CrawlSpec.SaveCrawl | apps/api/src/lib/crawl-redis.ts:19-29 | the record is replaced and nothing else of the crawl changes |
| CrawlSpec.AddCrawlJob | apps/api/src/lib/crawl-redis.ts:50-59 | the job set gains exactly the id; nothing else changes |
| CrawlSpec.AddCrawlJobs | apps/api/src/lib/crawl-redis.ts:61-72 | an empty list returns true and changes nothing; otherwise the result is undefined and the job set grows by exactly the given ids |
| CrawlSpec.AddCrawlJobDone | apps/api/src/lib/crawl-redis.ts:74-106 | the id always joins the done set; on success it is appended to the ordered list; on failure the occurrence nearest the tail, if any, is removed and the rest keeps its order |
| CrawlSpec.GetDoneJobsOrdered | apps/api/src/lib/crawl-redis.ts:113-124 | the defaults return the whole ordered list; a start with the default end returns the suffix from that start, counted from the tail when negative; in-range indices return the inclusive slice; never longer than the list |
| CrawlSpec.FinishCrawlKickoff | apps/api/src/lib/crawl-redis.ts:146-153 | the kickoff flag is set; on a crawl whose flag is already set the call changes nothing (idempotent) |
| CrawlSpec.FinishCrawlPre | apps/api/src/lib/crawl-redis.ts:155-176 | true exactly when the crawl is finished and `finished_pre` was absent; undefined exactly when the crawl is not finished, and then nothing is written; a finished crawl leaves `finished_pre` set |
| CrawlSpec.FinishCrawl | apps/api/src/lib/crawl-redis.ts:178-186 | the `finish` key is set and nothing else changes |
| CrawlSpec.IsCrawlFinished | apps/api/src/lib/crawl-redis.ts:126-133 | definition: as many done ids as jobs, and the kickoff flag set; when the done ids are jobs, this means every job is done; stability under further outcomes is `FinishedIsStable` |
| CrawlSpec.LimitReached | apps/api/src/lib/crawl-redis.ts:277-287 | definition of the link-limit check: never reached without a limit or below it; its effect is proved in `LockURL`, `LockEachWithinLimit` and `DeniedAfterLimitGrants` |
| CrawlSpec.LockItems | apps/api/src/lib/crawl-redis.ts:293-300 | definition of what `lockURL` inserts: it holds the normalised href, has no repeats and 1 to 16 items, and is that href alone without deduplication; used by `LockURLGrant` and `ClosureMemberDenied` |
| CrawlSpec.Admit | apps/api/src/lib/crawl-redis.ts:293-313 | the items join `visited`; `visited_unique` gains the normalised href exactly on a grant; nothing else changes |
| CrawlSpec.LockURL | apps/api/src/lib/crawl-redis.ts:264-319 | at the link limit the call denies and changes nothing; starting within the limit, `visited_unique` stays within it; only `visited` and `visited_unique` can change |
| CrawlSpec.NormalizedHrefs | apps/api/src/lib/crawl-redis.ts:329 | one normalised href per URL, in order |
| CrawlSpec.LockManyItems | apps/api/src/lib/crawl-redis.ts:346-352 | definition of what `lockURLs` inserts: one href per URL without deduplication, the concatenated closures with it; its properties are proved in `LockManyItemsNonEmpty`, `LockURLsRepeatFails` and `LockURLsGrant` |
| CrawlSpec.LockManyItemsNonEmpty | apps/api/src/lib/crawl-redis.ts:346-359 | a non-empty URL list gives `lockURLs` at least one item to insert, in both modes |
| CrawlSpec.LockURLs | apps/api/src/lib/crawl-redis.ts:322-365 | an empty list returns true and changes nothing; only `visited` and `visited_unique` can change |
| CrawlSpec.LockEach | apps/api/src/lib/crawl-redis.ts:367-381 | one grant per URL, from `lockURL` applied to the URLs in turn |
| CrawlSpec.LockEachAppend | apps/api/src/lib/crawl-redis.ts:374-378 | locking one more URL is one more `lockURL` call from the state the shorter run left |
| CrawlSpec.JobUrls | apps/api/src/lib/crawl-redis.ts:374-375 | the jobs' URLs, one per job, in order |
| CrawlSpec.LockURLGrant | apps/api/src/lib/crawl-redis.ts:289-313 | below the limit, the grant holds exactly when every inserted href is new to `visited` (without deduplication: exactly when the normalised URL is new); `visited` gains all items either way, and `visited_unique` gains the normalised URL exactly on a grant |
| CrawlSpec.LockURLCountsGrants | apps/api/src/lib/crawl-redis.ts:264-319 | `lockURL` keeps `visited_unique` inside `visited`, and `visited_unique` grows by one on a grant and not at all otherwise |
| CrawlSpec.LockEachWithinLimit | apps/api/src/lib/crawl-redis.ts:277-287 | over successive `lockURL` calls, `visited_unique` grows by the number of grants and, starting within the link limit, never passes it |
| CrawlSpec.DeniedAfterLimitGrants | apps/api/src/lib/crawl-redis.ts:277-287 | once the number of grants since an empty `visited_unique` reaches the limit, the next `lockURL` is denied whatever the URL |
| CrawlSpec.RelockDenied | apps/api/src/lib/crawl-redis.ts:289-305 | locking a URL a second time is denied |
| CrawlSpec.ClosureMemberDenied | apps/api/src/lib/crawl-redis.ts:296-303 | with deduplication, once a URL is granted, any URL whose normalised form lies in its closure is denied |
| CrawlSpec.LockURLsGrant | apps/api/src/lib/crawl-redis.ts:322-365 | on a non-empty list, `visited_unique` gains every normalised href whatever the outcome, `visited` gains every item, and the result holds exactly when the items are pairwise distinct and all new to `visited` |
| CrawlSpec.LockURLsRepeatFails | apps/api/src/lib/crawl-redis.ts:346-359 | two URLs of one call that normalise to the same href make `lockURLs` return false, in both modes |
| CrawlSpec.LockURLsKeepsUniqueInVisited | apps/api/src/lib/crawl-redis.ts:322-365 | `lockURLs` keeps every locked URL inside `visited` |
| CrawlSpec.FailureAfterSuccess | apps/api/src/lib/crawl-redis.ts:91-100 | a failure recorded after a success for a new id leaves the ordered list as it was before the success, with the id still in the done set |
| CrawlSpec.TwoSuccessesThenFailure | apps/api/src/lib/crawl-redis.ts:93-99 | a failure removes one occurrence only: after two successes and a failure the id is listed once |
| CrawlSpec.FinishedIsStable | apps/api/src/lib/crawl-redis.ts:126-133 | a finished crawl whose done ids are all jobs stays finished when another job's outcome is recorded |
| CrawlSpec.PreFinishAtMostOnce | apps/api/src/lib/crawl-redis.ts:155-176 | over any sequence of store operations, `finishCrawlPre` returns true at most once, and never once `finished_pre` is set |
| CrawlSpec.ExactlyOnePreFinish | apps/api/src/lib/crawl-redis.ts:155-176 | any number of `finishCrawlPre` callers on a finished crawl: exactly one wins |
| RedisStore.Store.SAdd | apps/api/src/lib/crawl-redis.ts:57 | the set gains the members; the count is the number of distinct members not already present; no other crawl changes |
| RedisStore.Store.SCard | apps/api/src/lib/crawl-redis.ts:129-130 | the set's cardinality, with an absent key counting as empty |
| RedisStore.Store.SMembers | apps/api/src/lib/crawl-redis.ts:189 | the set's members |
| RedisStore.Store.RPush | apps/api/src/lib/crawl-redis.ts:92 | the value is appended at the tail; the result is the new length |
| RedisStore.Store.LRemFromTail | apps/api/src/lib/crawl-redis.ts:95-99 | the list becomes `RedisSemantics.LRemFromTail` of the old list; the count is 1 or 0 |
| RedisStore.Store.LLen | apps/api/src/lib/crawl-redis.ts:110 | the list's length |
| RedisStore.Store.LRange | apps/api/src/lib/crawl-redis.ts:118-122 | `RedisSemantics.LRange` of the stored list |
| RedisStore.Store.Set | apps/api/src/lib/crawl-redis.ts:147-152 | the flag key becomes present; nothing else changes |
| RedisStore.Store.SetNX | apps/api/src/lib/crawl-redis.ts:162 | 1 exactly when the key was absent; the key is present afterwards |
| RedisStore.Store.Get | apps/api/src/lib/crawl-redis.ts:138 | whether the flag key is present |
| RedisStore.Store.Exists | apps/api/src/lib/crawl-redis.ts:143 | 1 when the key is present, 0 otherwise |
| RedisStore.Store.SetRecord | apps/api/src/lib/crawl-redis.ts:27 | the crawl's record is replaced |
| RedisStore.Store.GetRecord | apps/api/src/lib/crawl-redis.ts:32-39 | the record, or none when the crawl was never saved |
| CrawlRedis.SaveCrawl | apps/api/src/lib/crawl-redis.ts:19-29 | the crawl's new state is `CrawlSpec.SaveCrawl` of the old one; other crawls are untouched |
| CrawlRedis.GetCrawl | apps/api/src/lib/crawl-redis.ts:31-40 | the stored record, or none |
| CrawlRedis.AddCrawlJob | apps/api/src/lib/crawl-redis.ts:50-59 | new state is `CrawlSpec.AddCrawlJob`; other crawls untouched |
| CrawlRedis.AddCrawlJobs | apps/api/src/lib/crawl-redis.ts:61-72 | result and new state are `CrawlSpec.AddCrawlJobs`; other crawls untouched |
| CrawlRedis.AddCrawlJobDone | apps/api/src/lib/crawl-redis.ts:74-106 | new state is `CrawlSpec.AddCrawlJobDone`; other crawls untouched |
| CrawlRedis.GetDoneJobsOrderedLength | apps/api/src/lib/crawl-redis.ts:108-111 | the length of the ordered done list |
| CrawlRedis.GetDoneJobsOrdered | apps/api/src/lib/crawl-redis.ts:113-124 | `CrawlSpec.GetDoneJobsOrdered` of the crawl's state |
| CrawlRedis.IsCrawlFinished | apps/api/src/lib/crawl-redis.ts:126-133 | the kickoff flag is read only when the two counts agree; the result is `CrawlSpec.IsCrawlFinished`: the done set and the job set have the same size and the kickoff flag is present |
| CrawlRedis.IsCrawlKickoffFinished | apps/api/src/lib/crawl-redis.ts:135-140 | whether the kickoff flag is present |
| CrawlRedis.IsCrawlFinishedLocked | apps/api/src/lib/crawl-redis.ts:142-144 | 1 when the `finish` key is present, 0 otherwise |
| CrawlRedis.FinishCrawlKickoff | apps/api/src/lib/crawl-redis.ts:146-153 | new state is `CrawlSpec.FinishCrawlKickoff`; other crawls untouched |
| CrawlRedis.FinishCrawlPre | apps/api/src/lib/crawl-redis.ts:155-176 | result and new state are `CrawlSpec.FinishCrawlPre`; other crawls untouched |
| CrawlRedis.FinishCrawl | apps/api/src/lib/crawl-redis.ts:178-186 | new state is `CrawlSpec.FinishCrawl`; other crawls untouched |
| CrawlRedis.GetCrawlJobs | apps/api/src/lib/crawl-redis.ts:188-190 | the crawl's job ids |
| CrawlRedis.GetCrawlJobCount | apps/api/src/lib/crawl-redis.ts:192-194 | the number of job ids |
| CrawlRedis.LockURL | apps/api/src/lib/crawl-redis.ts:264-319 | grant and new state are `CrawlSpec.LockURL`; other crawls untouched |
| CrawlRedis.Admit | apps/api/src/lib/crawl-redis.ts:293-313 | grant and new state are `CrawlSpec.Admit`; other crawls untouched |
| CrawlRedis.LockNext | apps/api/src/lib/crawl-redis.ts:374-378 | one turn of the loop: one more `lockURL` extends the grants and the state of `CrawlSpec.LockEach` by one URL; other crawls untouched |
| CrawlRedis.LockURLs | apps/api/src/lib/crawl-redis.ts:322-365 | result and new state are `CrawlSpec.LockURLs`; other crawls untouched |
| CrawlRedis.LockURLsIndividually | apps/api/src/lib/crawl-redis.ts:367-381 | the returned jobs are exactly those whose `lockURL` granted, in input order, and the new state is that of `lockURL` applied to each URL in turn; other crawls untouched |
| EngineTable.Priority | apps/api/src/scraper/scrapeURL/engines/index.ts:76-93 | every flag's priority is positive |
| EngineTable.FeatureFlagsComplete | apps/api/src/scraper/scrapeURL/engines/index.ts:59-72 | the flag list names every flag exactly once |
| EngineTable.Quality | apps/api/src/scraper/scrapeURL/engines/index.ts:137-368 | at most 1000, and exactly 1000 for the cache; negative exactly for the stealth engines, pdf and docx; never 0 |
| EngineTable.Features | apps/api/src/scraper/scrapeURL/engines/index.ts:137-368 | definition of the engine table rows: every row supports some flag, only the pdf engine supports `pdf` and only the docx engine `docx`; more in `StealthFeatures` and `NoScreenshotSupport` |
| EngineTable.StealthFeatures | apps/api/src/scraper/scrapeURL/engines/index.ts:137-368 | only the specialty engines support the stealth proxy, and each of the four stealth engines (chrome-cdp, retry chrome-cdp, playwright, tlsclient) supports strictly more than its plain counterpart |
| EngineTable.DeployedEngines | apps/api/src/scraper/scrapeURL/engines/index.ts:39-57 | cache, every one of the eight fire-engine engines, and Playwright appear exactly when configured, the cache first and only once; no other engine appears; fetch, pdf and docx always close the list |
| EngineTable.FireEnginesExactly | apps/api/src/scraper/scrapeURL/engines/index.ts:41-51 | the fire-engine list names every fire-engine engine exactly once and nothing else |
| EngineTable.MockEnginesExactly | apps/api/src/scraper/scrapeURL/engines/index.ts:378 | the mocked engines are exactly the fire-engine family, so never the cache |
| FallbackSpec.BaseEngines | apps/api/src/scraper/scrapeURL/engines/index.ts:374-379 | definition of `_engines` before the cache step: the cache is in it exactly when deployed, every fire-engine engine exactly when deployed or mocked, fetch, pdf and docx always; `CacheOnlyFirst` places the cache |
| FallbackSpec.AvailableEngines | apps/api/src/scraper/scrapeURL/engines/index.ts:374-386 | with `useCache` the list is unchanged; otherwise exactly one cache entry is removed, counted as a multiset |
| FallbackSpec.CacheOnlyFirst | apps/api/src/scraper/scrapeURL/engines/index.ts:374-379 | in `_engines` the cache can only be the first entry |
| FallbackSpec.CacheRemoved | apps/api/src/scraper/scrapeURL/engines/index.ts:381-386 | without `useCache === true` the cache is not a candidate, and every other engine still is |
| FallbackSpec.CurrentEngines | apps/api/src/scraper/scrapeURL/engines/index.ts:399-402 | definition of the candidates: the forced engines, or else the available ones, which hold no cache without `useCache` and every other engine of `_engines`; order is in `PreferredInCandidateOrder` and `ForcedOrderKept` |
| FallbackSpec.PrioritySumMonotone | apps/api/src/scraper/scrapeURL/engines/index.ts:388-391 | the priority sum of a subset is no larger |
| FallbackSpec.PrioritySumRemove | apps/api/src/scraper/scrapeURL/engines/index.ts:388-391 | the sum is the priority of one flag plus the sum of the rest, so the order of the reduce does not matter |
| FallbackSpec.PrioritySumZero | apps/api/src/scraper/scrapeURL/engines/index.ts:388-391 | the sum is 0 exactly for the empty set |
| FallbackSpec.Threshold | apps/api/src/scraper/scrapeURL/engines/index.ts:392 | definition: half the required priority rounded down, so twice it is the sum or one less; 0 with no flags; `ScreenshotThreshold` and `NoFlagsRequired` use it |
| FallbackSpec.SupportScore | apps/api/src/scraper/scrapeURL/engines/index.ts:412-415 | definition: never more than the required priority, all of it when the engine supports every required flag, and 0 exactly when it supports none; `NoScreenshotSupport` and `EntriesEvaluated` use it |
| FallbackSpec.Evaluate | apps/api/src/scraper/scrapeURL/engines/index.ts:405-422 | the score never exceeds the required priority; the unsupported flags are required flags outside the engine's row, and together with the supported ones they make up all required flags |
| FallbackSpec.Evaluations | apps/api/src/scraper/scrapeURL/engines/index.ts:404-423 | one entry per candidate, in candidate order |
| FallbackSpec.AtLeast | apps/api/src/scraper/scrapeURL/engines/index.ts:424-426 | an entry is kept exactly when its score reaches the threshold |
| FallbackSpec.Positive | apps/api/src/scraper/scrapeURL/engines/index.ts:429-433 | an entry is kept exactly when its engine's quality is positive |
| FallbackSpec.PreferPositive | apps/api/src/scraper/scrapeURL/engines/index.ts:429-433 | definition of the quality preference: its entries come from the input, it is empty only for empty input, and when any entry has positive quality every kept one does; `PositivePreferred` states it both ways |
| FallbackSpec.EnginesOf | apps/api/src/scraper/scrapeURL/engines/index.ts:370-373 | the engines of the entries, in order |
| FallbackSpec.SortByRank | apps/api/src/scraper/scrapeURL/engines/index.ts:436-440 | definition of the stable sort as an insertion sort: a permutation of its input; order and stability are `SortByRankProperties` |
| FallbackSpec.SortByRankProperties | apps/api/src/scraper/scrapeURL/engines/index.ts:435-441 | the sort orders by score then quality, both descending, is a permutation, and is stable: entries that rank the same keep their order |
| FallbackSpec.InsertSorted | apps/api/src/scraper/scrapeURL/engines/index.ts:435-441 | inserting into a ranked list keeps it ranked |
| FallbackSpec.InsertStable | apps/api/src/scraper/scrapeURL/engines/index.ts:435-441 | inserting places an entry after every entry that ranks the same |
| FallbackSpec.AtLeastSubsequence | apps/api/src/scraper/scrapeURL/engines/index.ts:424-426 | the threshold filter keeps candidate order |
| FallbackSpec.PositiveSubsequence | apps/api/src/scraper/scrapeURL/engines/index.ts:429-433 | the quality filter keeps order |
| FallbackSpec.EntriesEvaluated | apps/api/src/scraper/scrapeURL/engines/index.ts:404-427 | every returned entry is a candidate's, its score is the priority of the required flags its engine supports and reaches the threshold, and its unsupported flags are the required flags outside the engine's row |
| FallbackSpec.PositivePreferred | apps/api/src/scraper/scrapeURL/engines/index.ts:429-433 | when some threshold survivor has positive quality, the result holds exactly the positive-quality survivors; otherwise it holds all survivors |
| FallbackSpec.UnforcedRanked | apps/api/src/scraper/scrapeURL/engines/index.ts:435-441 | without forced engines the result is ranked by score then quality, is a permutation of the preferred survivors, and keeps candidate order among equal ranks |
| FallbackSpec.PreferredInCandidateOrder | apps/api/src/scraper/scrapeURL/engines/index.ts:399-433 | before the sort, the surviving engines are the candidates with some left out, in candidate order |
| FallbackSpec.ForcedOrderKept | apps/api/src/scraper/scrapeURL/engines/index.ts:435 | with forced engines the result keeps the forced order, possibly with engines dropped |
| FallbackSpec.ForcedSingle | apps/api/src/scraper/scrapeURL/engines/index.ts:399-433 | a single forced engine is returned exactly when its score reaches the threshold, whatever its quality |
| FallbackSpec.ForcedEngineDropped | apps/api/src/scraper/scrapeURL/engines/index.ts:399-433 | with only `screenshot` required, a forced engine without screenshot support (such as `playwright`) gives an empty result |
| FallbackSpec.NoScreenshotSupport | apps/api/src/scraper/scrapeURL/engines/index.ts:405-415 | an engine without screenshot support scores 0 against `{screenshot}` |
| FallbackSpec.ScreenshotThreshold | apps/api/src/scraper/scrapeURL/engines/index.ts:388-392 | requiring only `screenshot` gives threshold 5 |
| FallbackSpec.ScreenshotDropsCache | apps/api/src/scraper/scrapeURL/engines/index.ts:424-426 | requiring only `screenshot` drops the cache (score 0), whatever `useCache` says |
| FallbackSpec.AtLeastZero | apps/api/src/scraper/scrapeURL/engines/index.ts:424-426 | a threshold of 0 keeps every entry |
| FallbackSpec.NoFlagsRequired | apps/api/src/scraper/scrapeURL/engines/index.ts:388-441 | with no required flags the threshold is 0, every candidate passes with score 0 and no unsupported flags, and without forced engines the result is ordered by quality alone |
| FallbackSpec.FallbackList | apps/api/src/scraper/scrapeURL/engines/index.ts:370-448 | definition of the result: never longer than the threshold survivors, and never empty when some survive; `EntriesEvaluated`, `PositivePreferred`, `UnforcedRanked`, `ForcedOrderKept` and `ForcedSingle` prove the rest |
| Fallback.SumPriorities | apps/api/src/scraper/scrapeURL/engines/index.ts:388-391 | the reduce returns the priority sum of the set, in whatever order it visits it |
| Fallback.UnsupportedFlags | apps/api/src/scraper/scrapeURL/engines/index.ts:417-422 | the deletion loop leaves exactly the required flags that are not supported |
| Fallback.CandidateEngines | apps/api/src/scraper/scrapeURL/engines/index.ts:374-386 | `_engines` after the cache step is `FallbackSpec.AvailableEngines` |
| Fallback.SpliceOut | apps/api/src/scraper/scrapeURL/engines/index.ts:382-385 | `indexOf` then `splice(index, 1)` removes the first occurrence, if any |
| Fallback.EvaluateEngine | apps/api/src/scraper/scrapeURL/engines/index.ts:405-422 | one engine's entry is `FallbackSpec.Evaluate` |
| Fallback.SelectEngines | apps/api/src/scraper/scrapeURL/engines/index.ts:404-427 | the loop pushes, in candidate order, exactly the entries whose score reaches the threshold |
| Fallback.BuildFallbackList | apps/api/src/scraper/scrapeURL/engines/index.ts:370-448 | returns exactly `FallbackSpec.FallbackList` of the request and the deployment |

## Left out

- Redis as a server: the connection, round trips and errors. Each command is one atomic step on an in-memory object.
- Key expiry: every EXPIRE call, the `"EX"` option of SET and `getCrawlExpiry` (crawl-redis.ts:42-48). All of them need a clock.
- Logging: every logger call in both files.
- Concurrency: the model does not interleave workers. "Exactly once" for `finishCrawlPre` is proved over any sequential run of store operations (`CrawlSpec.PreFinishAtMostOnce`).
- URL parsing and serialisation by the URL class: ports, userinfo, percent-encoding, host and case normalisation. A URL is a record of its parts, and `Href` concatenates them.
- CrawlUrls.WithPathname: the pathname setter models only one rule, that an empty path on a special scheme becomes "/".
- JSON: `saveCrawl` and `getCrawl` store the record as a value, not as `JSON.stringify` text.
- Record fields: only the crawler options that this file reads (`limit`, `ignoreQueryParameters`, `deduplicateSimilarURLs`) are structured.
- `crawlToCrawler` (crawl-redis.ts:383-420): it calls crawler and robots.txt code that is not part of this model.
- Engine dispatch: `scrapeURLWithEngine` and `engineHandlers` (engines/index.ts:116-135, 450-466) call network and browser backends.
- Environment and mocks: the environment variables of engines/index.ts:29-37 become the `Deployment` parameter. The `meta.mock` object becomes `Meta.hasMock`.
- RedisStore.Store.SAdd requires at least one member, because Redis rejects SADD without members. Every caller passes a non-empty list: `addCrawlJobs` and `lockURLs` return early on an empty input.
- Crawl limit: `CrawlerOptions.limit` is an integer. A JavaScript number limit that is fractional or NaN is not modelled; a NaN limit never denies, because `>= NaN` is false.
- Malformed URLs: inputs are well-formed URL records. The exception that `new URL(...)` throws on a malformed string (crawl-redis.ts:197, 206, and the `lockURL`/`lockURLs` paths) is not modelled. In `lockURLsIndividually` such an exception would abort the loop after earlier jobs had already written to the store.
- Key strings: keys are structured (crawl id, suffix). The model therefore assumes that distinct crawl ids never build the same key string.
- Fallback.BuildFallbackList: the quality filter and the in-place stable `Array.prototype.sort` are modelled on values (`FallbackSpec.Positive`, the insertion sort `FallbackSpec.SortByRank`), not as an in-place array algorithm.
- Fallback.EvaluateEngine: the supported flags (the `Object.entries` filter) are modelled as a set intersection, not as a walk over the engine's table row.
