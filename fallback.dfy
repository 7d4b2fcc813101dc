/** `buildFallbackList` of apps/api/src/scraper/scrapeURL/engines/index.ts, step by step as the
    original computes it, proved to return exactly FallbackSpec.FallbackList. The deployment
    (which engines the environment enables) and whether a mock is supplied are parameters. */
module Fallback {
  import opened Collections
  import opened EngineTable
  import opened FallbackSpec

  /** The `reduce` that adds up the priorities of a set of flags, visiting them in any order. */
  method SumPriorities(flags: set<FeatureFlag>) returns (sum: nat)
    ensures sum == PrioritySum(flags)
  {
    sum := 0;
    var pending := flags;
    while pending != {}
      invariant sum + PrioritySum(pending) == PrioritySum(flags)
      decreases |pending|
    {
      var f :| f in pending;
      PrioritySumRemove(pending, f);
      sum := sum + Priority(f);
      pending := pending - {f};
    }
    PrioritySumZero(pending);
  }

  /** `unsupportedFeatures`: a copy of the required flags from which the loop deletes every flag
      the engine supports. */
  method UnsupportedFlags(flags: set<FeatureFlag>, supported: set<FeatureFlag>)
    returns (unsupported: set<FeatureFlag>)
    ensures unsupported == flags - supported
  {
    unsupported := flags;
    var pending := flags;
    while pending != {}
      invariant pending <= flags
      invariant unsupported == flags - (supported * (flags - pending))
      decreases |pending|
    {
      var f :| f in pending;
      if f in supported {
        unsupported := unsupported - {f};
      }
      pending := pending - {f};
    }
  }

  /** `_engines`: the deployed engines, the fire-engine family when a mock is supplied to a
      deployment without fire-engine, and then, unless the request asks for the cache, the cache
      entry spliced out. */
  method CandidateEngines(meta: Meta, d: Deployment) returns (engines: seq<Engine>)
    ensures engines == AvailableEngines(meta, d)
  {
    engines := DeployedEngines(d) + (if !d.fireEngine && meta.hasMock then MockEngines else []);
    if !meta.useCache {
      engines := SpliceOut(engines, Cache);
    }
  }

  /** `indexOf` followed by `splice(index, 1)` when the index is not -1. */
  method SpliceOut(s: seq<Engine>, x: Engine) returns (r: seq<Engine>)
    ensures r == RemoveFirst(s, x)
  {
    r := s;
    var index := IndexOf(s, x);
    if index != -1 {
      r := s[..index] + s[index + 1..];
    }
  }

  /** One turn of the loop over `currentEngines`: the supported flags, their priority, and the
      required flags left unsupported. */
  method EvaluateEngine(engine: Engine, flags: set<FeatureFlag>) returns (sel: Selection)
    ensures sel == Evaluate(engine, flags)
  {
    var supported := flags * Features(engine);
    var supportScore := SumPriorities(supported);
    var unsupported := UnsupportedFlags(flags, supported);
    sel := Selection(engine, supportScore, unsupported);
  }

  /** The loop over `currentEngines`: pushes the entries of the engines whose support score
      reaches the threshold, in order. */
  method SelectEngines(current: seq<Engine>, flags: set<FeatureFlag>, threshold: nat)
    returns (selected: seq<Selection>)
    ensures selected == AtLeast(Evaluations(current, flags), threshold)
  {
    ghost var all := Evaluations(current, flags);
    selected := [];
    for i := 0 to |current|
      invariant selected == AtLeast(all[..i], threshold)
    {
      var sel := EvaluateEngine(current[i], flags);
      assert all[..i + 1][..i] == all[..i];
      if sel.supportScore >= threshold {
        selected := selected + [sel];
      }
    }
    assert all[..|current|] == all;
  }

  /** `buildFallbackList(meta)`. */
  method BuildFallbackList(meta: Meta, d: Deployment) returns (selected: seq<Selection>)
    ensures selected == FallbackList(meta, d)
  {
    var engines := CandidateEngines(meta, d);
    var prioritySum := SumPriorities(meta.featureFlags);
    var threshold := prioritySum / 2;
    var current := if meta.forceEngine.Some? then ForcedEngines(meta.forceEngine.value) else engines;
    selected := SelectEngines(current, meta.featureFlags, threshold);
    if HasPositive(selected) {
      selected := Positive(selected);
    }
    if meta.forceEngine.None? {
      selected := SortByRank(selected);
    }
  }
}
