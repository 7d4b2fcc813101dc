/** What the crawl store operations of apps/api/src/lib/crawl-redis.ts do to one crawl's keys, as
    functions from the crawl's state before the call to its result and the state after it.
    The imperative operations over the shared store (module CrawlRedis) are proved against these. */
module CrawlSpec {
  import opened Wrappers
  import opened Collections
  import opened RedisSemantics
  import opened CrawlRecord
  import opened CrawlUrls

  /** Everything the store holds under one crawl id: the record (`crawl:<id>`), the sets `jobs`,
      `jobs_done`, `visited` and `visited_unique`, the list `jobs_done_ordered`, and whether the
      flag keys `kickoff:finish`, `finish` and `finished_pre` are present. */
  datatype CrawlState = CrawlState(
    record: Option<StoredCrawl>,
    jobs: set<string>,
    jobsDone: set<string>,
    jobsDoneOrdered: seq<string>,
    visited: set<string>,
    visitedUnique: set<string>,
    kickoffFinished: bool,
    finishLocked: bool,
    finishedPre: bool)

  /** A call's returned value together with the state it leaves. */
  datatype Step<R> = Step(result: R, after: CrawlState)

  /** A crawl nothing has been written for. */
  const NoCrawl := CrawlState(None, {}, {}, [], {}, {}, false, false, false)

  // ---------------------------------------------------------------------------------------------
  // Crawl record and job bookkeeping
  // ---------------------------------------------------------------------------------------------

  /** `saveCrawl`: the record is replaced, the crawl's sets, list and flags are untouched. */
  function SaveCrawl(s: CrawlState, rec: StoredCrawl): (r: CrawlState)
    ensures r.record == Some(rec)
    ensures r.(record := s.record) == s
  {
    s.(record := Some(rec))
  }

  /** `addCrawlJob`: job membership only grows, by exactly the given id. */
  function AddCrawlJob(s: CrawlState, jobId: string): (r: CrawlState)
    ensures jobId in r.jobs && s.jobs <= r.jobs
    ensures r.jobs - s.jobs <= {jobId}
    ensures r.(jobs := s.jobs) == s
  {
    s.(jobs := s.jobs + {jobId})
  }

  /** `addCrawlJobs`: an empty list returns true and changes nothing; otherwise every id becomes a
      member and the call returns `undefined`. */
  function AddCrawlJobs(s: CrawlState, jobIds: seq<string>): (r: Step<Option<bool>>)
    ensures jobIds == [] ==> r == Step(Some(true), s)
    ensures jobIds != [] ==> r.result == None
    ensures forall j :: j in jobIds ==> j in r.after.jobs
    ensures s.jobs <= r.after.jobs
    ensures forall j :: j in r.after.jobs ==> j in s.jobs || j in jobIds
    ensures r.after.(jobs := s.jobs) == s
  {
    if jobIds == [] then Step(Some(true), s)
    else Step(None, s.(jobs := s.jobs + Elements(jobIds)))
  }

  /** `addCrawlJobDone`: the id always joins `jobs_done`; on success it is appended to the tail of
      `jobs_done_ordered`, on failure the occurrence nearest the tail, if any, is removed and the
      rest of the list keeps its order. */
  function AddCrawlJobDone(s: CrawlState, jobId: string, success: bool): (r: CrawlState)
    ensures r.jobsDone == s.jobsDone + {jobId}
    ensures success ==> r.jobsDoneOrdered == s.jobsDoneOrdered + [jobId]
    ensures !success && jobId !in s.jobsDoneOrdered ==> r.jobsDoneOrdered == s.jobsDoneOrdered
    ensures !success && jobId in s.jobsDoneOrdered ==>
      exists i :: 0 <= i < |s.jobsDoneOrdered| && s.jobsDoneOrdered[i] == jobId
        && jobId !in s.jobsDoneOrdered[i + 1..]
        && r.jobsDoneOrdered == s.jobsDoneOrdered[..i] + s.jobsDoneOrdered[i + 1..]
    ensures r.(jobsDone := s.jobsDone, jobsDoneOrdered := s.jobsDoneOrdered) == s
  {
    s.(jobsDone := s.jobsDone + {jobId},
       jobsDoneOrdered := if success then s.jobsDoneOrdered + [jobId]
                          else LRemFromTail(s.jobsDoneOrdered, jobId))
  }

  /** `getDoneJobsOrdered(id, start, end)`; the defaults 0 and -1 give the whole list. */
  function GetDoneJobsOrdered(s: CrawlState, start: int, stop: int): (r: seq<string>)
    ensures start == 0 && stop == -1 ==> r == s.jobsDoneOrdered
    ensures 0 <= start <= stop < |s.jobsDoneOrdered| ==> r == s.jobsDoneOrdered[start..stop + 1]
    ensures 0 <= start <= |s.jobsDoneOrdered| && stop == -1 ==> r == s.jobsDoneOrdered[start..]
    ensures -|s.jobsDoneOrdered| <= start < 0 && stop == -1 ==>
              r == s.jobsDoneOrdered[|s.jobsDoneOrdered| + start..]
    ensures |r| <= |s.jobsDoneOrdered|
  {
    LRange(s.jobsDoneOrdered, start, stop)
  }

  /** `isCrawlFinished`: as many done jobs as jobs, and the kickoff flag present. */
  predicate IsCrawlFinished(s: CrawlState): (b: bool)
    ensures s.jobsDone <= s.jobs ==> (b <==> s.jobsDone == s.jobs && s.kickoffFinished)
  {
    assert s.jobsDone <= s.jobs && |s.jobsDone| == |s.jobs| ==> s.jobsDone == s.jobs by {
      if s.jobsDone <= s.jobs && |s.jobsDone| == |s.jobs| {
        assert |s.jobs - s.jobsDone| == |s.jobs| - |s.jobsDone|;
      }
    }
    |s.jobsDone| == |s.jobs| && s.kickoffFinished
  }

  /** `finishCrawlKickoff`: sets the kickoff flag; on a crawl whose flag is set it changes nothing. */
  function FinishCrawlKickoff(s: CrawlState): (r: CrawlState)
    ensures r.kickoffFinished
    ensures s.kickoffFinished ==> r == s
    ensures r.(kickoffFinished := s.kickoffFinished) == s
  {
    s.(kickoffFinished := true)
  }

  /** `finishCrawlPre`: when the crawl is not finished it returns `undefined` and writes nothing;
      otherwise SETNX on `finished_pre` decides, so the result is true exactly for the call that
      finds the key absent. */
  function FinishCrawlPre(s: CrawlState): (r: Step<Option<bool>>)
    ensures r.result == Some(true) <==> IsCrawlFinished(s) && !s.finishedPre
    ensures r.result == None <==> !IsCrawlFinished(s)
    ensures !IsCrawlFinished(s) ==> r.after == s
    ensures IsCrawlFinished(s) ==> r.after == s.(finishedPre := true)
  {
    if IsCrawlFinished(s) then Step(Some(!s.finishedPre), s.(finishedPre := true))
    else Step(None, s)
  }

  /** `finishCrawl`: sets the terminal `finish` key that `isCrawlFinishedLocked` reports. */
  function FinishCrawl(s: CrawlState): (r: CrawlState)
    ensures r.finishLocked
    ensures r.(finishLocked := s.finishLocked) == s
  {
    s.(finishLocked := true)
  }

  // ---------------------------------------------------------------------------------------------
  // URL admission
  // ---------------------------------------------------------------------------------------------

  /** The crawl has a numeric link limit and `visited_unique` already holds that many URLs. */
  predicate LimitReached(s: CrawlState, sc: StoredCrawl): (b: bool)
    ensures LinkLimit(sc).None? ==> !b
    ensures LinkLimit(sc).Some? && |s.visitedUnique| < LinkLimit(sc).value ==> !b
  {
    LinkLimit(sc).Some? && |s.visitedUnique| >= LinkLimit(sc).value
  }

  /** The hrefs `lockURL` inserts into `visited`: the normalised URL alone, or its whole
      near-duplicate closure when the crawl deduplicates similar URLs. */
  function LockItems(sc: StoredCrawl, url: Url): (r: seq<string>)
    ensures NormalizedHref(url, sc) in r
    ensures Distinct(r) && 1 <= |r| <= 16
    ensures !DeduplicatesSimilarURLs(sc) ==> |r| == 1
  {
    PermutationsBounded(NormalizeURL(url, sc));
    if DeduplicatesSimilarURLs(sc) then PermutationHrefs(NormalizeURL(url, sc))
    else [NormalizedHref(url, sc)]
  }

  /** The part of `lockURL` after the limit check, over the normalised href and the items to
      insert: the items join `visited`; with deduplication the call grants when SADD reports
      every item new, without it when SADD reports a non-zero count; a grant adds the href to
      `visited_unique`. */
  function Admit(s: CrawlState, dedup: bool, href: string, items: seq<string>): (r: Step<bool>)
    ensures r.after.visited == s.visited + Elements(items)
    ensures r.after.visitedUnique == if r.result then s.visitedUnique + {href} else s.visitedUnique
    ensures r.after == s.(visited := r.after.visited, visitedUnique := r.after.visitedUnique)
  {
    var added := |Elements(items) - s.visited|;
    var granted := if dedup then added == |items| else added != 0;
    Step(granted, s.(visited := s.visited + Elements(items),
                     visitedUnique := if granted then s.visitedUnique + {href} else s.visitedUnique))
  }

  /** `lockURL`. At the link limit it denies without writing. Otherwise it inserts the items into
      `visited`, grants when SADD reports them all new (non-zero for the single URL), and on a grant
      records the normalised URL in `visited_unique`. */
  function LockURL(s: CrawlState, sc: StoredCrawl, url: Url): (r: Step<bool>)
    ensures LimitReached(s, sc) ==> r == Step(false, s)
    ensures LinkLimit(sc).Some? && |s.visitedUnique| <= LinkLimit(sc).value ==>
      |r.after.visitedUnique| <= LinkLimit(sc).value
    ensures r.after == s.(visited := r.after.visited, visitedUnique := r.after.visitedUnique)
  {
    if LimitReached(s, sc) then Step(false, s)
    else Admit(s, DeduplicatesSimilarURLs(sc), NormalizedHref(url, sc), LockItems(sc, url))
  }

  /** The normalised hrefs of a list of URLs (`urls.map(url => normalizeURL(url, sc))`). */
  function NormalizedHrefs(urls: seq<Url>, sc: StoredCrawl): (r: seq<string>)
    ensures |r| == |urls|
    ensures forall i :: 0 <= i < |urls| ==> r[i] == NormalizedHref(urls[i], sc)
  {
    seq(|urls|, i requires 0 <= i < |urls| => NormalizedHref(urls[i], sc))
  }

  /** The hrefs `lockURLs` inserts into `visited`: the normalised hrefs, or the concatenation of
      every URL's closure, repeats across URLs included. */
  function LockManyItems(sc: StoredCrawl, urls: seq<Url>): (r: seq<string>)
    ensures !DeduplicatesSimilarURLs(sc) ==> |r| == |urls|
  {
    if DeduplicatesSimilarURLs(sc) then FlatMap(urls, (u: Url) => PermutationHrefs(NormalizeURL(u, sc)))
    else NormalizedHrefs(urls, sc)
  }

  /** A non-empty list of URLs gives `lockURLs` at least one item to insert. */
  lemma LockManyItemsNonEmpty(sc: StoredCrawl, urls: seq<Url>)
    requires urls != []
    ensures |LockManyItems(sc, urls)| > 0
  {
    if DeduplicatesSimilarURLs(sc) {
      PermutationsBounded(NormalizeURL(urls[0], sc));
      FlatMapHas(urls, (u: Url) => PermutationHrefs(NormalizeURL(u, sc)), urls[0], NormalizedHref(urls[0], sc));
    }
  }

  /** `lockURLs`, which does not consult the link limit: an empty list returns true and changes
      nothing; otherwise every normalised href joins `visited_unique` whatever the outcome, the
      items join `visited`, and the result compares SADD's count with the number of items. */
  function LockURLs(s: CrawlState, sc: StoredCrawl, urls: seq<Url>): (r: Step<bool>)
    ensures urls == [] ==> r == Step(true, s)
    ensures r.after == s.(visited := r.after.visited, visitedUnique := r.after.visitedUnique)
  {
    if urls == [] then Step(true, s)
    else
      var items := LockManyItems(sc, urls);
      var added := |Elements(items) - s.visited|;
      Step(added == |items|,
           s.(visitedUnique := s.visitedUnique + Elements(NormalizedHrefs(urls, sc)),
              visited := s.visited + Elements(items)))
  }

  /** `lockURL` applied to each URL in turn: the grants, one per URL, and the final state. */
  function LockEach(s: CrawlState, sc: StoredCrawl, urls: seq<Url>): (r: Step<seq<bool>>)
    ensures |r.result| == |urls|
  {
    if urls == [] then Step([], s)
    else
      var prev := LockEach(s, sc, urls[..|urls| - 1]);
      var last := LockURL(prev.after, sc, urls[|urls| - 1]);
      Step(prev.result + [last.result], last.after)
  }

  /** `LockEach` over one more URL is one more `lockURL` from where the shorter run left off. */
  lemma {:induction false} LockEachAppend(s: CrawlState, sc: StoredCrawl, urls: seq<Url>, url: Url)
    ensures LockEach(s, sc, urls + [url]) ==
      Step(LockEach(s, sc, urls).result + [LockURL(LockEach(s, sc, urls).after, sc, url).result],
           LockURL(LockEach(s, sc, urls).after, sc, url).after)
  {
    assert (urls + [url])[..|urls|] == urls;
  }

  /** One more turn of the fold: the state and grants after `i` URLs, followed by `lockURL` on
      the next URL, are the fold over `i + 1` URLs. */
  lemma LockEachStep(s: CrawlState, sc: StoredCrawl, urls: seq<Url>, i: nat, grants: seq<bool>,
                     before: CrawlState, granted: bool, after: CrawlState)
    requires i < |urls|
    requires LockEach(s, sc, urls[..i]) == Step(grants, before)
    requires Step(granted, after) == LockURL(before, sc, urls[i])
    ensures LockEach(s, sc, urls[..i + 1]) == Step(grants + [granted], after)
  {
    assert urls[..i + 1] == urls[..i] + [urls[i]];
    LockEachAppend(s, sc, urls[..i], urls[i]);
  }

  /** A job handed to `lockURLsIndividually`. */
  datatype Job = Job(id: string, url: Url)

  /** The jobs' URLs, in order (built from the back, like `LockEach`). */
  function JobUrls(jobs: seq<Job>): (r: seq<Url>)
    ensures |r| == |jobs|
    ensures forall i :: 0 <= i < |jobs| ==> r[i] == jobs[i].url
  {
    if jobs == [] then [] else JobUrls(jobs[..|jobs| - 1]) + [jobs[|jobs| - 1].url]
  }

  /** Every URL recorded as locked is also in `visited`; every operation keeps this. */
  ghost predicate UniqueInVisited(s: CrawlState) {
    s.visitedUnique <= s.visited
  }

  // ---------------------------------------------------------------------------------------------
  // Admission properties
  // ---------------------------------------------------------------------------------------------

  /** Below the limit, `lockURL` grants exactly when every inserted href is new to `visited`: the
      normalised URL without deduplication, its whole closure with it. `visited` gains all of them
      either way, and `visited_unique` changes only on a grant. */
  lemma LockURLGrant(s: CrawlState, sc: StoredCrawl, url: Url)
    requires !LimitReached(s, sc)
    ensures LockURL(s, sc, url).result <==> forall x :: x in LockItems(sc, url) ==> x !in s.visited
    ensures !DeduplicatesSimilarURLs(sc) ==>
      (LockURL(s, sc, url).result <==> NormalizedHref(url, sc) !in s.visited)
    ensures LockURL(s, sc, url).after.visited == s.visited + Elements(LockItems(sc, url))
    ensures LockURL(s, sc, url).after.visitedUnique ==
      if LockURL(s, sc, url).result then s.visitedUnique + {NormalizedHref(url, sc)} else s.visitedUnique
  {
    var items := LockItems(sc, url);
    AllNew(items, s.visited);
    if DeduplicatesSimilarURLs(sc) {
      PermutationsBounded(NormalizeURL(url, sc));
    } else {
      assert Elements(items) == {NormalizedHref(url, sc)};
    }
  }

  /** `lockURL` keeps every locked URL inside `visited`, and a grant locks a URL that was not
      locked before, so `visited_unique` grows by exactly one per grant. */
  lemma LockURLCountsGrants(s: CrawlState, sc: StoredCrawl, url: Url)
    requires UniqueInVisited(s)
    ensures UniqueInVisited(LockURL(s, sc, url).after)
    ensures |LockURL(s, sc, url).after.visitedUnique| ==
      |s.visitedUnique| + if LockURL(s, sc, url).result then 1 else 0
  {
    if !LimitReached(s, sc) {
      LockURLGrant(s, sc, url);
    }
  }

  /** Successive `lockURL` calls: each grant adds one URL to `visited_unique`, and starting within
      the link limit they never take `visited_unique` past it. */
  lemma {:induction false} LockEachWithinLimit(s: CrawlState, sc: StoredCrawl, urls: seq<Url>)
    requires UniqueInVisited(s)
    ensures UniqueInVisited(LockEach(s, sc, urls).after)
    ensures |LockEach(s, sc, urls).after.visitedUnique| == |s.visitedUnique| + CountTrue(LockEach(s, sc, urls).result)
    ensures LinkLimit(sc).Some? && |s.visitedUnique| <= LinkLimit(sc).value ==>
      |LockEach(s, sc, urls).after.visitedUnique| <= LinkLimit(sc).value
  {
    if urls != [] {
      var init := urls[..|urls| - 1];
      LockEachWithinLimit(s, sc, init);
      var prev := LockEach(s, sc, init);
      LockURLCountsGrants(prev.after, sc, urls[|urls| - 1]);
      CountTrueAppend(prev.result, LockURL(prev.after, sc, urls[|urls| - 1]).result);
    }
  }

  /** With the limit L reached after N grants, the next `lockURL` is denied whatever the URL. */
  lemma DeniedAfterLimitGrants(s: CrawlState, sc: StoredCrawl, urls: seq<Url>, next: Url)
    requires UniqueInVisited(s) && s.visitedUnique == {}
    requires LinkLimit(sc).Some? && CountTrue(LockEach(s, sc, urls).result) >= LinkLimit(sc).value
    ensures !LockURL(LockEach(s, sc, urls).after, sc, next).result
  {
    LockEachWithinLimit(s, sc, urls);
  }

  /** Locking a URL a second time is denied: its normalised href is already in `visited`. */
  lemma RelockDenied(s: CrawlState, sc: StoredCrawl, url: Url)
    requires LockURL(s, sc, url).result
    ensures !LockURL(LockURL(s, sc, url).after, sc, url).result
  {
    LockURLGrant(s, sc, url);
    var t := LockURL(s, sc, url).after;
    if !LimitReached(t, sc) {
      LockURLGrant(t, sc, url);
    }
  }

  /** With deduplication on, once a URL is granted, any URL whose normalised form lies in its
      closure is denied. */
  lemma ClosureMemberDenied(s: CrawlState, sc: StoredCrawl, first: Url, second: Url)
    requires DeduplicatesSimilarURLs(sc)
    requires LockURL(s, sc, first).result
    requires NormalizedHref(second, sc) in PermutationHrefs(NormalizeURL(first, sc))
    ensures !LockURL(LockURL(s, sc, first).after, sc, second).result
  {
    LockURLGrant(s, sc, first);
    var t := LockURL(s, sc, first).after;
    if !LimitReached(t, sc) {
      LockURLGrant(t, sc, second);
    }
  }

  /** `lockURLs` on a non-empty list: `visited_unique` gains every normalised href whatever the
      outcome, `visited` gains every item, and the result is true exactly when the items are
      pairwise distinct and all new to `visited`. */
  lemma LockURLsGrant(s: CrawlState, sc: StoredCrawl, urls: seq<Url>)
    requires urls != []
    ensures LockURLs(s, sc, urls).after.visitedUnique == s.visitedUnique + Elements(NormalizedHrefs(urls, sc))
    ensures LockURLs(s, sc, urls).after.visited == s.visited + Elements(LockManyItems(sc, urls))
    ensures LockURLs(s, sc, urls).result <==>
      Distinct(LockManyItems(sc, urls)) && forall x :: x in LockManyItems(sc, urls) ==> x !in s.visited
  {
    AllNew(LockManyItems(sc, urls), s.visited);
  }

  lemma {:induction false} FlatMapRepeat<A, B>(s: seq<A>, f: A -> seq<B>, i: nat, j: nat, x: B)
    requires i < j < |s| && x in f(s[i]) && x in f(s[j])
    ensures !Distinct(FlatMap(s, f))
  {
    var t := FlatMap(s[1..], f);
    assert FlatMap(s, f) == f(s[0]) + t;
    if i == 0 {
      FlatMapHas(s[1..], f, s[j], x);
      var a :| 0 <= a < |f(s[0])| && f(s[0])[a] == x;
      var b :| 0 <= b < |t| && t[b] == x;
      assert FlatMap(s, f)[a] == FlatMap(s, f)[|f(s[0])| + b];
    } else {
      FlatMapRepeat(s[1..], f, i - 1, j - 1, x);
      var a, b :| 0 <= a < b < |t| && t[a] == t[b];
      assert FlatMap(s, f)[|f(s[0])| + a] == FlatMap(s, f)[|f(s[0])| + b];
    }
  }

  /** Two URLs of one `lockURLs` call that normalise to the same href make the call fail, in both
      modes: without deduplication the href is inserted twice, with it the two closures overlap. */
  lemma LockURLsRepeatFails(s: CrawlState, sc: StoredCrawl, urls: seq<Url>, i: nat, j: nat)
    requires i < j < |urls|
    requires NormalizedHref(urls[i], sc) == NormalizedHref(urls[j], sc)
    ensures !LockURLs(s, sc, urls).result
  {
    LockURLsGrant(s, sc, urls);
    var items := LockManyItems(sc, urls);
    if DeduplicatesSimilarURLs(sc) {
      PermutationsBounded(NormalizeURL(urls[i], sc));
      PermutationsBounded(NormalizeURL(urls[j], sc));
      FlatMapRepeat(urls, (u: Url) => PermutationHrefs(NormalizeURL(u, sc)), i, j, NormalizedHref(urls[i], sc));
    } else {
      assert items[i] == items[j];
    }
  }

  /** `lockURLs` keeps every locked URL inside `visited`. */
  lemma LockURLsKeepsUniqueInVisited(s: CrawlState, sc: StoredCrawl, urls: seq<Url>)
    requires UniqueInVisited(s)
    ensures UniqueInVisited(LockURLs(s, sc, urls).after)
  {
    if urls != [] {
      LockURLsGrant(s, sc, urls);
      forall h | h in NormalizedHrefs(urls, sc) ensures h in LockManyItems(sc, urls) {
        var i :| 0 <= i < |urls| && NormalizedHrefs(urls, sc)[i] == h;
        if DeduplicatesSimilarURLs(sc) {
          PermutationsBounded(NormalizeURL(urls[i], sc));
          FlatMapHas(urls, (u: Url) => PermutationHrefs(NormalizeURL(u, sc)), urls[i], h);
        }
      }
    }
  }

  // ---------------------------------------------------------------------------------------------
  // Completion properties
  // ---------------------------------------------------------------------------------------------

  /** A failure recorded after a success for the same id leaves the id out of `jobs_done_ordered`
      (and in `jobs_done`) when it was not listed before the success. */
  lemma FailureAfterSuccess(s: CrawlState, jobId: string)
    requires jobId !in s.jobsDoneOrdered
    ensures AddCrawlJobDone(AddCrawlJobDone(s, jobId, true), jobId, false).jobsDoneOrdered == s.jobsDoneOrdered
    ensures jobId in AddCrawlJobDone(AddCrawlJobDone(s, jobId, true), jobId, false).jobsDone
  {
    var l := s.jobsDoneOrdered + [jobId];
    assert l[..|s.jobsDoneOrdered|] == s.jobsDoneOrdered;
  }

  /** Removal takes one occurrence only: an id recorded successful twice stays listed once after a
      failure. */
  lemma TwoSuccessesThenFailure(s: CrawlState, jobId: string)
    requires jobId !in s.jobsDoneOrdered
    ensures AddCrawlJobDone(AddCrawlJobDone(AddCrawlJobDone(s, jobId, true), jobId, true), jobId, false).jobsDoneOrdered
      == s.jobsDoneOrdered + [jobId]
  {
    var l := s.jobsDoneOrdered + [jobId] + [jobId];
    assert l[..|l| - 1] == s.jobsDoneOrdered + [jobId];
  }

  /** Once the crawl is finished with every done id a member, recording another member's outcome
      keeps it finished. */
  lemma FinishedIsStable(s: CrawlState, jobId: string, success: bool)
    requires IsCrawlFinished(s) && s.jobsDone <= s.jobs && jobId in s.jobs
    ensures IsCrawlFinished(AddCrawlJobDone(s, jobId, success))
  {
    SubsetCard(s.jobsDone, s.jobs);
    assert s.jobsDone + {jobId} == s.jobsDone;
  }

  /** Every store operation of this core, as a step of a run over one crawl. */
  datatype Op =
    | SaveCrawlOp(rec: StoredCrawl)
    | AddCrawlJobOp(jobId: string)
    | AddCrawlJobsOp(jobIds: seq<string>)
    | AddCrawlJobDoneOp(jobId: string, success: bool)
    | FinishCrawlKickoffOp
    | FinishCrawlPreOp
    | FinishCrawlOp
    | LockURLOp(sc: StoredCrawl, url: Url)
    | LockURLsOp(sc: StoredCrawl, urls: seq<Url>)

  function Apply(s: CrawlState, op: Op): CrawlState {
    match op
    case SaveCrawlOp(rec) => SaveCrawl(s, rec)
    case AddCrawlJobOp(jobId) => AddCrawlJob(s, jobId)
    case AddCrawlJobsOp(jobIds) => AddCrawlJobs(s, jobIds).after
    case AddCrawlJobDoneOp(jobId, success) => AddCrawlJobDone(s, jobId, success)
    case FinishCrawlKickoffOp => FinishCrawlKickoff(s)
    case FinishCrawlPreOp => FinishCrawlPre(s).after
    case FinishCrawlOp => FinishCrawl(s)
    case LockURLOp(sc, url) => LockURL(s, sc, url).after
    case LockURLsOp(sc, urls) => LockURLs(s, sc, urls).after
  }

  /** How many `finishCrawlPre` calls of a run return true. */
  function PreFinishWins(s: CrawlState, ops: seq<Op>): nat
    decreases |ops|
  {
    if ops == [] then 0
    else
      (if ops[0].FinishCrawlPreOp? && FinishCrawlPre(s).result == Some(true) then 1 else 0)
      + PreFinishWins(Apply(s, ops[0]), ops[1..])
  }

  /** No operation clears `finished_pre`, and a winning `finishCrawlPre` sets it. */
  lemma ApplyKeepsFinishedPre(s: CrawlState, op: Op)
    ensures s.finishedPre ==> Apply(s, op).finishedPre
    ensures op.FinishCrawlPreOp? && FinishCrawlPre(s).result == Some(true) ==> Apply(s, op).finishedPre
  {
  }

  /** Over any run of store operations, `finishCrawlPre` returns true at most once, and never once
      `finished_pre` is set. */
  lemma {:induction false} PreFinishAtMostOnce(s: CrawlState, ops: seq<Op>)
    ensures PreFinishWins(s, ops) <= if s.finishedPre then 0 else 1
    decreases |ops|
  {
    if ops != [] {
      ApplyKeepsFinishedPre(s, ops[0]);
      PreFinishAtMostOnce(Apply(s, ops[0]), ops[1..]);
    }
  }

  /** Many workers racing `finishCrawlPre` on a finished crawl: exactly one of them wins. */
  lemma ExactlyOnePreFinish(s: CrawlState, racers: nat)
    requires IsCrawlFinished(s) && !s.finishedPre && racers > 0
    ensures PreFinishWins(s, seq(racers, _ => FinishCrawlPreOp)) == 1
  {
    var ops := seq(racers, _ => FinishCrawlPreOp);
    PreFinishAtMostOnce(Apply(s, ops[0]), ops[1..]);
  }
}
