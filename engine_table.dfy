/** The static capability tables of apps/api/src/scraper/scrapeURL/engines/index.ts: the feature
    flags with their priorities, and for every scraping engine the flags it supports and its
    quality. Which engines a deployment enables is given as a `Deployment` value instead of being
    read from the environment. */
module EngineTable {

  datatype FeatureFlag =
    | Actions
    | WaitFor
    | Screenshot
    | ScreenshotFullScreen // "screenshot@fullScreen"
    | PdfFlag              // "pdf"
    | DocxFlag             // "docx"
    | Atsv
    | Location
    | Mobile
    | SkipTlsVerification
    | UseFastMode
    | StealthProxy

  /** The flags in declaration order, which is also the key order of every row of the engine
      table. */
  const FeatureFlags: seq<FeatureFlag> := [
    Actions, WaitFor, Screenshot, ScreenshotFullScreen, PdfFlag, DocxFlag, Atsv, Location, Mobile,
    SkipTlsVerification, UseFastMode, StealthProxy]

  /** `featureFlagOptions[f].priority`. */
  function Priority(f: FeatureFlag): (p: nat)
    ensures p > 0
  {
    match f
    case Actions => 20
    case WaitFor => 1
    case Screenshot => 10
    case ScreenshotFullScreen => 10
    case PdfFlag => 100
    case DocxFlag => 100
    case Atsv => 90
    case UseFastMode => 90
    case Location => 10
    case Mobile => 10
    case SkipTlsVerification => 10
    case StealthProxy => 20
  }

  /** The list of flags names every flag exactly once. */
  lemma FeatureFlagsComplete(f: FeatureFlag)
    ensures f in FeatureFlags
    ensures forall i, j :: 0 <= i < j < |FeatureFlags| ==> FeatureFlags[i] != FeatureFlags[j]
  {
  }

  datatype Engine =
    | Cache                           // "cache"
    | FireEngineChromeCdp             // "fire-engine;chrome-cdp"
    | FireEngineRetryChromeCdp        // "fire-engine(retry);chrome-cdp"
    | FireEngineChromeCdpStealth      // "fire-engine;chrome-cdp;stealth"
    | FireEngineRetryChromeCdpStealth // "fire-engine(retry);chrome-cdp;stealth"
    | FireEnginePlaywright            // "fire-engine;playwright"
    | FireEnginePlaywrightStealth     // "fire-engine;playwright;stealth"
    | FireEngineTlsClient             // "fire-engine;tlsclient"
    | FireEngineTlsClientStealth      // "fire-engine;tlsclient;stealth"
    | Playwright                      // "playwright"
    | Fetch                           // "fetch"
    | Pdf                             // "pdf"
    | Docx                            // "docx"

  /** What the Chrome CDP engines of the fire-engine service support (through the actions
      transform for waitFor and screenshots). */
  const ChromeCdpFeatures: set<FeatureFlag> :=
    {Actions, WaitFor, Screenshot, ScreenshotFullScreen, Location, Mobile, SkipTlsVerification}

  const FirePlaywrightFeatures: set<FeatureFlag> := {WaitFor, Screenshot, ScreenshotFullScreen}

  const TlsClientFeatures: set<FeatureFlag> := {Atsv, Location, UseFastMode}

  /** The flags an engine's row of `engineOptions` marks true. */
  function Features(e: Engine): (r: set<FeatureFlag>)
    ensures r != {}
    ensures PdfFlag in r <==> e == Pdf
    ensures DocxFlag in r <==> e == Docx
  {
    match e
    case Cache => {WaitFor}
    case FireEngineChromeCdp => ChromeCdpFeatures
    case FireEngineRetryChromeCdp => ChromeCdpFeatures
    case FireEngineChromeCdpStealth => ChromeCdpFeatures + {StealthProxy}
    case FireEngineRetryChromeCdpStealth => ChromeCdpFeatures + {StealthProxy}
    case FireEnginePlaywright => FirePlaywrightFeatures
    case FireEnginePlaywrightStealth => FirePlaywrightFeatures + {StealthProxy}
    case FireEngineTlsClient => TlsClientFeatures
    case FireEngineTlsClientStealth => TlsClientFeatures + {StealthProxy}
    case Playwright => {WaitFor}
    case Fetch => {UseFastMode}
    case Pdf => {PdfFlag, UseFastMode, StealthProxy}
    case Docx => {DocxFlag, UseFastMode, StealthProxy}
  }

  /** The engines the table reserves negative quality for: stealth proxies, PDF and DOCX. */
  predicate IsSpecialty(e: Engine) {
    e in {FireEngineChromeCdpStealth, FireEngineRetryChromeCdpStealth, FireEnginePlaywrightStealth,
          FireEngineTlsClientStealth, Pdf, Docx}
  }

  /** `engineOptions[e].quality`: the cache ranks first, and exactly the specialty engines are
      negative. */
  function Quality(e: Engine): (q: int)
    ensures q <= 1000
    ensures q == 1000 <==> e == Cache
    ensures q < 0 <==> IsSpecialty(e)
    ensures q != 0
  {
    match e
    case Cache => 1000
    case FireEngineChromeCdp => 50
    case FireEngineRetryChromeCdp => 45
    case FireEngineChromeCdpStealth => -1
    case FireEngineRetryChromeCdpStealth => -5
    case FireEnginePlaywright => 40
    case FireEnginePlaywrightStealth => -10
    case FireEngineTlsClient => 10
    case FireEngineTlsClientStealth => -15
    case Playwright => 20
    case Fetch => 5
    case Pdf => -20
    case Docx => -20
  }

  /** Every stealth engine supports the stealth proxy flag, and only stealth engines, PDF and DOCX
      do; each stealth engine supports everything its plain counterpart does. */
  lemma StealthFeatures(e: Engine)
    ensures StealthProxy in Features(e) <==> IsSpecialty(e)
    ensures Features(FireEngineChromeCdp) < Features(FireEngineChromeCdpStealth)
    ensures Features(FireEnginePlaywright) < Features(FireEnginePlaywrightStealth)
    ensures Features(FireEngineTlsClient) < Features(FireEngineTlsClientStealth)
    ensures Features(FireEngineRetryChromeCdp) < Features(FireEngineRetryChromeCdpStealth)
  {
    assert StealthProxy !in ChromeCdpFeatures;
    assert StealthProxy !in FirePlaywrightFeatures;
    assert StealthProxy !in TlsClientFeatures;
  }

  /** Which optional backends a deployment has configured (a non-empty cache Redis URL,
      fire-engine URL and Playwright microservice URL). */
  datatype Deployment = Deployment(cache: bool, fireEngine: bool, playwright: bool)

  const FireEngines: seq<Engine> := [
    FireEngineChromeCdp, FireEngineChromeCdpStealth, FireEngineRetryChromeCdp,
    FireEngineRetryChromeCdpStealth, FireEnginePlaywright, FireEnginePlaywrightStealth,
    FireEngineTlsClient, FireEngineTlsClientStealth]

  /** The engines served by the fire-engine service. */
  predicate IsFireEngine(e: Engine) {
    !(e.Cache? || e.Playwright? || e.Fetch? || e.Pdf? || e.Docx?)
  }

  /** `FireEngines` lists exactly the fire-engine engines, each once. */
  lemma FireEnginesExactly(e: Engine)
    ensures e in FireEngines <==> IsFireEngine(e)
    ensures forall i, j :: 0 <= i < j < |FireEngines| ==> FireEngines[i] != FireEngines[j]
  {
  }

  /** The exported `engines` list: cache, the fire-engine family and Playwright when configured,
      then fetch, pdf and docx, which are always available. */
  function DeployedEngines(d: Deployment): (r: seq<Engine>)
    ensures Cache in r <==> d.cache
    ensures d.cache ==> r[0] == Cache && Cache !in r[1..]
    ensures Playwright in r <==> d.playwright
    ensures forall e :: IsFireEngine(e) ==> (e in r <==> d.fireEngine)
    ensures forall e :: e in r ==> e == Cache || IsFireEngine(e) || e in [Playwright, Fetch, Pdf, Docx]
    ensures |r| >= 3 && r[|r| - 3..] == [Fetch, Pdf, Docx]
  {
    (if d.cache then [Cache] else [])
    + (if d.fireEngine then FireEngines else [])
    + (if d.playwright then [Playwright] else [])
    + [Fetch, Pdf, Docx]
  }

  /** The fire-engine family in the order `buildFallbackList` adds it when mocks are supplied to
      a deployment without fire-engine. */
  const MockEngines: seq<Engine> := [
    FireEngineChromeCdp, FireEngineRetryChromeCdp, FireEngineChromeCdpStealth,
    FireEngineRetryChromeCdpStealth, FireEnginePlaywright, FireEngineTlsClient,
    FireEnginePlaywrightStealth, FireEngineTlsClientStealth]

  /** The mocked engines are exactly the fire-engine engines, so never the cache. */
  lemma MockEnginesExactly()
    ensures forall e :: e in MockEngines <==> IsFireEngine(e)
  {
    forall e | IsFireEngine(e) ensures e in MockEngines {
      match e
      case FireEngineChromeCdp =>
      case FireEngineRetryChromeCdp =>
      case FireEngineChromeCdpStealth =>
      case FireEngineRetryChromeCdpStealth =>
      case FireEnginePlaywright =>
      case FireEnginePlaywrightStealth =>
      case FireEngineTlsClient =>
      case FireEngineTlsClientStealth =>
    }
  }
}
