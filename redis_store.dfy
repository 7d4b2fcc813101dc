/** The coordination store, as an in-memory object: string sets, string lists, flag keys that are
    either present or absent, and crawl records. Each method is one Redis command, applied
    atomically. Key expiry (EXPIRE, PTTL) is not part of this model. */
module RedisStore {
  import opened Wrappers
  import opened Collections
  import opened RedisSemantics
  import opened CrawlRecord
  import opened CrawlSpec

  /** The key suffixes under `crawl:<id>` that this core uses. */
  datatype KeyName =
    | Jobs            // crawl:<id>:jobs
    | JobsDone        // crawl:<id>:jobs_done
    | JobsDoneOrdered // crawl:<id>:jobs_done_ordered
    | Visited         // crawl:<id>:visited
    | VisitedUnique   // crawl:<id>:visited_unique
    | KickoffFinish   // crawl:<id>:kickoff:finish
    | Finish          // crawl:<id>:finish
    | FinishedPre     // crawl:<id>:finished_pre

  /** `"crawl:" + crawlId + ":" + name`, kept structured so that distinct crawls and suffixes are
      distinct keys. */
  datatype Key = Key(crawlId: string, name: KeyName)

  class Store {
    var sets: map<Key, set<string>>
    var lists: map<Key, seq<string>>
    var flags: set<Key>
    var records: map<string, StoredCrawl>

    constructor ()
      ensures sets == map[] && lists == map[] && flags == {} && records == map[]
    {
      sets, lists, flags, records := map[], map[], {}, map[];
    }

    /** An absent set key reads as the empty set. */
    function Members(k: Key): set<string>
      reads this
    {
      if k in sets then sets[k] else {}
    }

    /** An absent list key reads as the empty list. */
    function Items(k: Key): seq<string>
      reads this
    {
      if k in lists then lists[k] else []
    }

    /** Everything stored under one crawl id. */
    function View(id: string): CrawlState
      reads this
    {
      CrawlState(
        if id in records then Some(records[id]) else None,
        Members(Key(id, Jobs)), Members(Key(id, JobsDone)), Items(Key(id, JobsDoneOrdered)),
        Members(Key(id, Visited)), Members(Key(id, VisitedUnique)),
        Key(id, KickoffFinish) in flags, Key(id, Finish) in flags, Key(id, FinishedPre) in flags)
    }

    /** SADD: inserts the members and returns how many of them were not already in the set
        (a member given twice counts once). Redis refuses SADD without members. */
    method SAdd(k: Key, members: seq<string>) returns (added: nat)
      requires |members| > 0
      modifies this
      ensures sets == old(sets)[k := old(Members(k)) + Elements(members)]
      ensures added == |Elements(members) - old(Members(k))|
      ensures lists == old(lists) && flags == old(flags) && records == old(records)
      ensures forall other :: other != k.crawlId ==> View(other) == old(View(other))
    {
      added := |Elements(members) - Members(k)|;
      sets := sets[k := Members(k) + Elements(members)];
    }

    /** SCARD. */
    method SCard(k: Key) returns (n: nat)
      ensures n == |Members(k)|
    {
      n := |Members(k)|;
    }

    /** SMEMBERS; Redis fixes no order, so the members come back as a set. */
    method SMembers(k: Key) returns (members: set<string>)
      ensures members == Members(k)
    {
      members := Members(k);
    }

    /** RPUSH of one value; returns the new length. */
    method RPush(k: Key, v: string) returns (len: nat)
      modifies this
      ensures lists == old(lists)[k := old(Items(k)) + [v]]
      ensures len == |old(Items(k))| + 1
      ensures sets == old(sets) && flags == old(flags) && records == old(records)
      ensures forall other :: other != k.crawlId ==> View(other) == old(View(other))
    {
      lists := lists[k := Items(k) + [v]];
      len := |lists[k]|;
    }

    /** LREM with count -1; returns how many elements were removed. */
    method LRemFromTail(k: Key, v: string) returns (removed: nat)
      modifies this
      ensures lists == old(lists)[k := RedisSemantics.LRemFromTail(old(Items(k)), v)]
      ensures removed == if v in old(Items(k)) then 1 else 0
      ensures sets == old(sets) && flags == old(flags) && records == old(records)
      ensures forall other :: other != k.crawlId ==> View(other) == old(View(other))
    {
      var before := Items(k);
      var after := RedisSemantics.LRemFromTail(before, v);
      removed := if v in before then 1 else 0;
      lists := lists[k := after];
    }

    /** LLEN. */
    method LLen(k: Key) returns (n: nat)
      ensures n == |Items(k)|
    {
      n := |Items(k)|;
    }

    /** LRANGE. */
    method LRange(k: Key, start: int, stop: int) returns (r: seq<string>)
      ensures r == RedisSemantics.LRange(Items(k), start, stop)
    {
      r := RedisSemantics.LRange(Items(k), start, stop);
    }

    /** SET of a flag key ("yes"). */
    method Set(k: Key)
      modifies this
      ensures flags == old(flags) + {k}
      ensures sets == old(sets) && lists == old(lists) && records == old(records)
      ensures forall other :: other != k.crawlId ==> View(other) == old(View(other))
    {
      flags := flags + {k};
    }

    /** SETNX of a flag key: 1 when this call created it, 0 when it was already present. */
    method SetNX(k: Key) returns (created: nat)
      modifies this
      ensures created == if k in old(flags) then 0 else 1
      ensures flags == old(flags) + {k}
      ensures sets == old(sets) && lists == old(lists) && records == old(records)
      ensures forall other :: other != k.crawlId ==> View(other) == old(View(other))
    {
      created := if k in flags then 0 else 1;
      flags := flags + {k};
    }

    /** GET of a flag key, as "is not null". */
    method Get(k: Key) returns (present: bool)
      ensures present == (k in flags)
    {
      present := k in flags;
    }

    /** EXISTS of one key: 1 or 0. */
    method Exists(k: Key) returns (n: nat)
      ensures n == if k in flags then 1 else 0
    {
      n := if k in flags then 1 else 0;
    }

    /** SET of `crawl:<id>` to the record. */
    method SetRecord(id: string, crawl: StoredCrawl)
      modifies this
      ensures records == old(records)[id := crawl]
      ensures sets == old(sets) && lists == old(lists) && flags == old(flags)
      ensures forall other :: other != id ==> View(other) == old(View(other))
    {
      records := records[id := crawl];
    }

    /** GET of `crawl:<id>`; null when absent. */
    method GetRecord(id: string) returns (crawl: Option<StoredCrawl>)
      ensures crawl == if id in records then Some(records[id]) else None
    {
      crawl := if id in records then Some(records[id]) else None;
    }
  }
}
