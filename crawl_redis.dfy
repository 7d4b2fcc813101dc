/** The crawl store operations of apps/api/src/lib/crawl-redis.ts, as methods over the shared
    store. Each one issues the same Redis commands as the original, in the same order, and is
    proved to do to its crawl's keys exactly what the matching function of CrawlSpec says, and
    nothing to any other crawl. */
module CrawlRedis {
  import opened Wrappers
  import opened Collections
  import opened CrawlRecord
  import opened CrawlUrls
  import opened CrawlSpec
  import opened RedisStore

  method SaveCrawl(store: Store, id: string, crawl: StoredCrawl)
    modifies store
    ensures store.View(id) == CrawlSpec.SaveCrawl(old(store.View(id)), crawl)
    ensures forall other :: other != id ==> store.View(other) == old(store.View(other))
  {
    store.SetRecord(id, crawl);
  }

  /** `getCrawl`: the record, or null when the crawl was never saved. */
  method GetCrawl(store: Store, id: string) returns (crawl: Option<StoredCrawl>)
    ensures crawl == store.View(id).record
  {
    crawl := store.GetRecord(id);
  }

  method AddCrawlJob(store: Store, id: string, jobId: string)
    modifies store
    ensures store.View(id) == CrawlSpec.AddCrawlJob(old(store.View(id)), jobId)
    ensures forall other :: other != id ==> store.View(other) == old(store.View(other))
  {
    var _ := store.SAdd(Key(id, Jobs), [jobId]);
    assert Elements([jobId]) == {jobId};
  }

  /** `addCrawlJobs`: `Some(true)` for the early return on an empty list, `None` for `undefined`. */
  method AddCrawlJobs(store: Store, id: string, jobIds: seq<string>) returns (r: Option<bool>)
    modifies store
    ensures Step(r, store.View(id)) == CrawlSpec.AddCrawlJobs(old(store.View(id)), jobIds)
    ensures forall other :: other != id ==> store.View(other) == old(store.View(other))
  {
    if |jobIds| == 0 {
      return Some(true);
    }
    var _ := store.SAdd(Key(id, Jobs), jobIds);
    r := None;
  }

  method AddCrawlJobDone(store: Store, id: string, jobId: string, success: bool)
    modifies store
    ensures store.View(id) == CrawlSpec.AddCrawlJobDone(old(store.View(id)), jobId, success)
    ensures forall other :: other != id ==> store.View(other) == old(store.View(other))
  {
    ghost var s := store.View(id);
    var _ := store.SAdd(Key(id, JobsDone), [jobId]);
    assert Elements([jobId]) == {jobId};
    assert store.View(id) == s.(jobsDone := s.jobsDone + {jobId});
    if success {
      var _ := store.RPush(Key(id, JobsDoneOrdered), jobId);
    } else {
      var _ := store.LRemFromTail(Key(id, JobsDoneOrdered), jobId);
    }
  }

  method GetDoneJobsOrderedLength(store: Store, id: string) returns (n: nat)
    ensures n == |store.View(id).jobsDoneOrdered|
  {
    n := store.LLen(Key(id, JobsDoneOrdered));
  }

  /** `getDoneJobsOrdered(id, start, end)`; callers pass 0 and -1 for the defaults. */
  method GetDoneJobsOrdered(store: Store, id: string, start: int, stop: int) returns (r: seq<string>)
    ensures r == CrawlSpec.GetDoneJobsOrdered(store.View(id), start, stop)
  {
    r := store.LRange(Key(id, JobsDoneOrdered), start, stop);
  }

  /** `isCrawlFinished`: the GET of the kickoff flag is issued only when the counts agree, as
      `&&` short-circuits. */
  method IsCrawlFinished(store: Store, id: string) returns (finished: bool)
    ensures finished == CrawlSpec.IsCrawlFinished(store.View(id))
  {
    var done := store.SCard(Key(id, JobsDone));
    var all := store.SCard(Key(id, Jobs));
    finished := false;
    if done == all {
      finished := store.Get(Key(id, KickoffFinish));
    }
  }

  method IsCrawlKickoffFinished(store: Store, id: string) returns (finished: bool)
    ensures finished == store.View(id).kickoffFinished
  {
    finished := store.Get(Key(id, KickoffFinish));
  }

  /** `isCrawlFinishedLocked` returns EXISTS's count, 1 or 0. */
  method IsCrawlFinishedLocked(store: Store, id: string) returns (n: nat)
    ensures n == if store.View(id).finishLocked then 1 else 0
  {
    n := store.Exists(Key(id, Finish));
  }

  method FinishCrawlKickoff(store: Store, id: string)
    modifies store
    ensures store.View(id) == CrawlSpec.FinishCrawlKickoff(old(store.View(id)))
    ensures forall other :: other != id ==> store.View(other) == old(store.View(other))
  {
    store.Set(Key(id, KickoffFinish));
  }

  /** `finishCrawlPre`: `None` stands for the `undefined` of the not-finished branch. */
  method FinishCrawlPre(store: Store, id: string) returns (r: Option<bool>)
    modifies store
    ensures Step(r, store.View(id)) == CrawlSpec.FinishCrawlPre(old(store.View(id)))
    ensures forall other :: other != id ==> store.View(other) == old(store.View(other))
  {
    var finished := IsCrawlFinished(store, id);
    if finished {
      var created := store.SetNX(Key(id, FinishedPre));
      r := Some(created == 1);
    } else {
      r := None;
    }
  }

  method FinishCrawl(store: Store, id: string)
    modifies store
    ensures store.View(id) == CrawlSpec.FinishCrawl(old(store.View(id)))
    ensures forall other :: other != id ==> store.View(other) == old(store.View(other))
  {
    store.Set(Key(id, Finish));
  }

  /** `getCrawlJobs`: the job ids, in no particular order. */
  method GetCrawlJobs(store: Store, id: string) returns (jobs: set<string>)
    ensures jobs == store.View(id).jobs
  {
    jobs := store.SMembers(Key(id, Jobs));
  }

  method GetCrawlJobCount(store: Store, id: string) returns (n: nat)
    ensures n == |store.View(id).jobs|
  {
    n := store.SCard(Key(id, Jobs));
  }

  method LockURL(store: Store, id: string, sc: StoredCrawl, url: Url) returns (granted: bool)
    modifies store
    ensures Step(granted, store.View(id)) == CrawlSpec.LockURL(old(store.View(id)), sc, url)
    ensures forall other :: other != id ==> store.View(other) == old(store.View(other))
  {
    if LinkLimit(sc).Some? {
      var unique := store.SCard(Key(id, VisitedUnique));
      if unique >= LinkLimit(sc).value {
        return false;
      }
    }
    granted := Admit(store, id, DeduplicatesSimilarURLs(sc), NormalizedHref(url, sc), LockItems(sc, url));
  }

  /** The part of `lockURL` after the limit check. */
  method Admit(store: Store, id: string, dedup: bool, href: string, items: seq<string>)
    returns (granted: bool)
    requires |items| > 0
    modifies store
    ensures Step(granted, store.View(id)) == CrawlSpec.Admit(old(store.View(id)), dedup, href, items)
    ensures forall other :: other != id ==> store.View(other) == old(store.View(other))
  {
    var added := store.SAdd(Key(id, Visited), items);
    granted := if dedup then added == |items| else added != 0;
    if granted {
      var _ := store.SAdd(Key(id, VisitedUnique), [href]);
      assert Elements([href]) == {href};
    }
  }

  /** `lockURLs`, which does not consult the link limit. */
  method LockURLs(store: Store, id: string, sc: StoredCrawl, urls: seq<Url>) returns (ok: bool)
    modifies store
    ensures Step(ok, store.View(id)) == CrawlSpec.LockURLs(old(store.View(id)), sc, urls)
    ensures forall other :: other != id ==> store.View(other) == old(store.View(other))
  {
    if |urls| == 0 {
      return true;
    }
    ghost var s := store.View(id);
    var hrefs := NormalizedHrefs(urls, sc);
    var _ := store.SAdd(Key(id, VisitedUnique), hrefs);
    assert store.View(id) == s.(visitedUnique := s.visitedUnique + Elements(hrefs));
    var items := LockManyItems(sc, urls);
    LockManyItemsNonEmpty(sc, urls);
    var added := store.SAdd(Key(id, Visited), items);
    assert store.View(id) == s.(visitedUnique := s.visitedUnique + Elements(hrefs),
                                visited := s.visited + Elements(items));
    ok := added == |items|;
  }

  /** One turn of `lockURLsIndividually`'s loop: `lockURL` on the next URL extends the fold. */
  method LockNext(store: Store, id: string, sc: StoredCrawl, ghost start: CrawlState, ghost urls: seq<Url>,
                  ghost i: nat, ghost grants: seq<bool>, url: Url)
    returns (granted: bool)
    requires i < |urls| && urls[i] == url
    requires LockEach(start, sc, urls[..i]) == Step(grants, store.View(id))
    modifies store
    ensures LockEach(start, sc, urls[..i + 1]) == Step(grants + [granted], store.View(id))
    ensures forall other :: other != id ==> store.View(other) == old(store.View(other))
  {
    ghost var before := store.View(id);
    granted := LockURL(store, id, sc, url);
    LockEachStep(start, sc, urls, i, grants, before, granted, store.View(id));
  }

  /** `lockURLsIndividually`: locks the jobs' URLs one at a time, in order, and returns the jobs
      whose lock was granted. The grants and the final state are those of `lockURL` applied to
      each URL in turn, so the link limit is never overrun (CrawlSpec.LockEachWithinLimit). */
  method LockURLsIndividually(store: Store, id: string, sc: StoredCrawl, jobs: seq<Job>)
    returns (out: seq<Job>)
    modifies store
    ensures store.View(id) == LockEach(old(store.View(id)), sc, JobUrls(jobs)).after
    ensures out == Select(jobs, LockEach(old(store.View(id)), sc, JobUrls(jobs)).result)
    ensures forall other :: other != id ==> store.View(other) == old(store.View(other))
  {
    ghost var start := store.View(id);
    ghost var urls := JobUrls(jobs);
    ghost var grants: seq<bool> := [];
    out := [];
    for i := 0 to |jobs|
      invariant |grants| == i
      invariant LockEach(start, sc, urls[..i]) == Step(grants, store.View(id))
      invariant out == Select(jobs[..i], grants)
      invariant forall other :: other != id ==> store.View(other) == old(store.View(other))
    {
      var granted := LockNext(store, id, sc, start, urls, i, grants, jobs[i].url);
      SelectPrefix(jobs, i, grants, granted);
      if granted {
        out := out + [jobs[i]];
      }
      grants := grants + [granted];
    }
    WholePrefix(jobs, |jobs|);
    WholePrefix(urls, |jobs|);
  }
}
