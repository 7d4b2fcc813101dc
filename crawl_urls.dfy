/** URL canonicalisation and the near-duplicate closure used for deduplication
    (`normalizeURL` and `generateURLPermutations` in apps/api/src/lib/crawl-redis.ts).

    A URL is the record of the parts these functions read and write. `Href` serialises it the way
    the URL class does for hierarchical URLs; parsing a URL string is not part of this model, so an
    input is already a record. */
module CrawlUrls {
  import opened Collections
  import opened CrawlRecord

  /** `search` is empty or starts with "?", `hash` is empty or starts with "#", and `protocol`
      carries its ":" — the conventions of the URL class's accessors. */
  datatype Url = Url(protocol: string, hostname: string, pathname: string, search: string, hash: string)

  function Href(u: Url): string {
    u.protocol + "//" + u.hostname + u.pathname + u.search + u.hash
  }

  function Hrefs(us: seq<Url>): (r: seq<string>)
    ensures |r| == |us|
    ensures forall i :: 0 <= i < |us| ==> r[i] == Href(us[i])
  {
    seq(|us|, i requires 0 <= i < |us| => Href(us[i]))
  }

  predicate StartsWith(s: string, prefix: string) {
    |prefix| <= |s| && s[..|prefix|] == prefix
  }

  /** `endsWith`, compared from the last character backwards. */
  predicate EndsWith(s: string, suffix: string)
    decreases |suffix|
  {
    |suffix| <= |s|
    && (|suffix| == 0
        || (s[|s| - 1] == suffix[|suffix| - 1] && EndsWith(s[..|s| - 1], suffix[..|suffix| - 1])))
  }

  /** `EndsWith` holds exactly when the last characters of `s` are `suffix`. */
  lemma {:induction false} EndsWithSlice(s: string, suffix: string)
    ensures EndsWith(s, suffix) <==> |suffix| <= |s| && s[|s| - |suffix|..] == suffix
    decreases |suffix|
  {
    if |suffix| > 0 && |suffix| <= |s| {
      var s', t' := s[..|s| - 1], suffix[..|suffix| - 1];
      EndsWithSlice(s', t');
      assert s[|s| - |suffix|..] == s'[|s'| - |t'|..] + [s[|s| - 1]];
      assert suffix == t' + [suffix[|suffix| - 1]];
    }
  }

  /** Schemes the URL Standard calls special; only for these does an empty path serialise as "/". */
  predicate IsSpecialScheme(protocol: string) {
    protocol in {"ftp:", "file:", "http:", "https:", "ws:", "wss:"}
  }

  predicate IsHttp(protocol: string) {
    protocol == "http:" || protocol == "https:"
  }

  /** Assigning `pathname`: on a special URL the empty path becomes "/". */
  function WithPathname(u: Url, path: string): (r: Url)
    ensures r.protocol == u.protocol && r.hostname == u.hostname
    ensures r.search == u.search && r.hash == u.hash
  {
    u.(pathname := if path == "" && IsSpecialScheme(u.protocol) then "/" else path)
  }

  /** `normalizeURL`: the fragment is always cleared, the query exactly when the crawl has no
      crawler options or asks to ignore query parameters; nothing else changes. */
  function NormalizeURL(u: Url, sc: StoredCrawl): (r: Url)
    ensures r.hash == ""
    ensures IgnoresQuery(sc) ==> r.search == ""
    ensures !IgnoresQuery(sc) ==> r.search == u.search
    ensures r.protocol == u.protocol && r.hostname == u.hostname && r.pathname == u.pathname
  {
    u.(search := if IgnoresQuery(sc) then "" else u.search, hash := "")
  }

  /** The href a crawl records for a URL. */
  function NormalizedHref(u: Url, sc: StoredCrawl): string {
    Href(NormalizeURL(u, sc))
  }

  /** The www / non-www pair: `[withWWW, withoutWWW]`. */
  function HostForms(u: Url): (r: seq<Url>)
    ensures |r| == 2 && u in r
    ensures forall v :: v in r ==> v == u.(hostname := v.hostname)
    ensures forall v :: v in r ==> v.search == u.search && v.hash == u.hash
    ensures StartsWith(u.hostname, "www.") ==> r[1].hostname == u.hostname[4..]
    ensures !StartsWith(u.hostname, "www.") ==> r[0].hostname == "www." + u.hostname
  {
    if StartsWith(u.hostname, "www.") then [u, u.(hostname := u.hostname[4..])]
    else [u.(hostname := "www." + u.hostname), u]
  }

  /** The http / https pair, or the URL alone when its scheme is neither. */
  function SchemeForms(u: Url): (r: seq<Url>)
    ensures u in r
    ensures !IsHttp(u.protocol) ==> r == [u]
    ensures IsHttp(u.protocol) ==> |r| == 2 && r[0].protocol == "http:" && r[1].protocol == "https:"
    ensures forall v :: v in r ==> v == u.(protocol := v.protocol)
    ensures forall v :: v in r ==> v.search == u.search && v.hash == u.hash
  {
    if !IsHttp(u.protocol) then [u]
    else [u.(protocol := "http:"), u.(protocol := "https:")]
  }

  /** Which of the four branches of the index-file rewrite a path takes. */
  datatype PathShape = EndsInSlash | EndsInIndexHtml | EndsInIndexPhp | Plain

  function ShapeOf(path: string): PathShape {
    if EndsWith(path, "/") then EndsInSlash
    else if EndsWith(path, "/index.html") then EndsInIndexHtml
    else if EndsWith(path, "/index.php") then EndsInIndexPhp
    else Plain
  }

  /** The directory a path's index-file forms share, ending in "/": the path itself when it ends
      in "/", the path without its index file name when it names one, and the path with "/"
      appended otherwise. */
  function IndexDir(p: string): (dir: string)
    ensures |dir| > 0 && dir[|dir| - 1] == '/'
  {
    match ShapeOf(p)
    case EndsInSlash => p
    case EndsInIndexHtml =>
      SplitIndexFile(p, "/index.html", "index.html");
      p[..|p| - 10]
    case EndsInIndexPhp =>
      SplitIndexFile(p, "/index.php", "index.php");
      p[..|p| - 9]
    case Plain => p + "/"
  }

  /** A path ending in "/" + `name` is its directory, ending in "/", followed by `name`. */
  lemma SplitIndexFile(p: string, slashName: string, name: string)
    requires slashName == "/" + name && EndsWith(p, slashName)
    ensures p == p[..|p| - |name|] + name
    ensures |p| - |name| > 0 && p[|p| - |name| - 1] == '/'
  {
    EndsWithSlice(p, slashName);
    assert p[|p| - |slashName|..][0] == '/';
    assert p[|p| - |name|..] == p[|p| - |slashName|..][1..];
  }

  /** The html form: the directory's "index.html", or the input when it already names it. */
  function HtmlForm(u: Url): (r: Url)
    ensures r == u.(pathname := r.pathname)
    ensures r.pathname == IndexDir(u.pathname) + "index.html"
    ensures ShapeOf(u.pathname) == EndsInIndexHtml ==> r == u
  {
    if ShapeOf(u.pathname) == EndsInIndexHtml then
      SplitIndexFile(u.pathname, "/index.html", "index.html");
      u
    else WithPathname(u, IndexDir(u.pathname) + "index.html")
  }

  /** The php form: the directory's "index.php", or the input when it already names it. */
  function PhpForm(u: Url): (r: Url)
    ensures r == u.(pathname := r.pathname)
    ensures r.pathname == IndexDir(u.pathname) + "index.php"
    ensures ShapeOf(u.pathname) == EndsInIndexPhp ==> r == u
  {
    if ShapeOf(u.pathname) == EndsInIndexPhp then
      SplitIndexFile(u.pathname, "/index.php", "index.php");
      u
    else WithPathname(u, IndexDir(u.pathname) + "index.php")
  }

  /** The slash form: the directory itself, which is the input when its path ends in "/". */
  function SlashForm(u: Url): (r: Url)
    ensures r == u.(pathname := r.pathname)
    ensures r.pathname == IndexDir(u.pathname)
    ensures ShapeOf(u.pathname) == EndsInSlash ==> r == u
  {
    if ShapeOf(u.pathname) == EndsInSlash then u
    else WithPathname(u, IndexDir(u.pathname))
  }

  /** The bare form: the directory without its trailing slash. The root "/" keeps its slash; a
      path that only names an index file under the root gets the empty path, which a special URL
      serialises as "/"; a path with no index file and no trailing slash is the input itself. */
  function BareForm(u: Url): (r: Url)
    ensures r == u.(pathname := r.pathname)
    ensures IndexDir(u.pathname) != "/" ==>
              r.pathname == IndexDir(u.pathname)[..|IndexDir(u.pathname)| - 1]
    ensures u.pathname == "/" ==> r == u
    ensures IndexDir(u.pathname) == "/" && ShapeOf(u.pathname) != EndsInSlash && u.pathname != "" ==>
              r.pathname == (if IsSpecialScheme(u.protocol) then "/" else "")
    ensures ShapeOf(u.pathname) == Plain ==> r == u
  {
    var p := u.pathname;
    var dir := IndexDir(p);
    if ShapeOf(p) == Plain || p == "/" then u
    else WithPathname(u, dir[..|dir| - 1])
  }

  /** The four index-file forms `[html, php, slash, bare]` of the path's directory (`IndexDir`);
      only the path changes. One of them is always the input itself: the slash form when the
      path ends in "/", the html or php form when it already names that index file, and the bare
      form otherwise. */
  function PathForms(u: Url): (r: seq<Url>)
    ensures |r| == 4
    ensures forall i :: 0 <= i < |r| ==> r[i] == u.(pathname := r[i].pathname)
    ensures r[0].pathname == IndexDir(u.pathname) + "index.html"
    ensures r[1].pathname == IndexDir(u.pathname) + "index.php"
    ensures r[2].pathname == IndexDir(u.pathname)
    ensures IndexDir(u.pathname) != "/" ==>
              r[3].pathname == IndexDir(u.pathname)[..|IndexDir(u.pathname)| - 1]
    ensures u.pathname == "/" ==> r[3] == u
    ensures IndexDir(u.pathname) == "/" && ShapeOf(u.pathname) != EndsInSlash && u.pathname != "" ==>
              r[3].pathname == (if IsSpecialScheme(u.protocol) then "/" else "")
    ensures ShapeOf(u.pathname) == EndsInSlash ==> r[2] == u
    ensures ShapeOf(u.pathname) == EndsInIndexHtml ==> r[0] == u
    ensures ShapeOf(u.pathname) == EndsInIndexPhp ==> r[1] == u
    ensures ShapeOf(u.pathname) == Plain ==> r[3] == u
  {
    [HtmlForm(u), PhpForm(u), SlashForm(u), BareForm(u)]
  }

  lemma PathFormKeepsScheme(w: Url, v: Url)
    requires v in PathForms(w)
    ensures v.protocol == w.protocol
  {
    var k :| 0 <= k < 4 && PathForms(w)[k] == v;
  }

  lemma PathFormsKeepInput(u: Url)
    ensures u in PathForms(u)
  {
    var r := PathForms(u);
    match ShapeOf(u.pathname)
    case EndsInSlash => assert r[2] == u;
    case EndsInIndexHtml => assert r[0] == u;
    case EndsInIndexPhp => assert r[1] == u;
    case Plain => assert r[3] == u;
  }

  /** Every www/scheme/index-file combination, before deduplication. */
  function AllForms(u: Url): seq<Url> {
    FlatMap(FlatMap(HostForms(u), SchemeForms), PathForms)
  }

  /** Keeps the first URL of each href, in order (`[...new Set(hrefs)]`). */
  function UniqueByHref(us: seq<Url>): (r: seq<Url>)
    ensures |r| <= |us|
    ensures forall v :: v in r ==> v in us
    ensures Distinct(Hrefs(r))
    ensures forall v :: v in us ==> Href(v) in Hrefs(r)
  {
    if us == [] then []
    else
      var r := UniqueByHref(us[..|us| - 1]);
      var last := us[|us| - 1];
      assert forall v :: v in us ==> v in us[..|us| - 1] || v == last;
      if Href(last) in Hrefs(r) then r
      else
        assert Hrefs(r + [last]) == Hrefs(r) + [Href(last)];
        r + [last]
  }

  /** `generateURLPermutations`. */
  function GenerateURLPermutations(u: Url): (r: seq<Url>)
    ensures Distinct(Hrefs(r))
    ensures forall v :: v in r ==> v in AllForms(u)
    ensures forall v :: v in AllForms(u) ==> Href(v) in Hrefs(r)
  {
    UniqueByHref(AllForms(u))
  }

  /** The hrefs `lockURL` inserts into the visited set for a URL. */
  function PermutationHrefs(u: Url): seq<string> {
    Hrefs(GenerateURLPermutations(u))
  }

  /** The closure has no repeated href, at most 2 x 2 x 4 members, and contains the input. */
  lemma PermutationsBounded(u: Url)
    ensures Distinct(PermutationHrefs(u))
    ensures |PermutationHrefs(u)| <= 16
    ensures Href(u) in PermutationHrefs(u)
  {
    var hosts := HostForms(u);
    var schemes := FlatMap(hosts, SchemeForms);
    FlatMapLength(hosts, SchemeForms, 2);
    FlatMapLength(schemes, PathForms, 4);
    FlatMapHas(hosts, SchemeForms, u, u);
    PathFormsKeepInput(u);
    FlatMapHas(schemes, PathForms, u, u);
  }

  /** A URL whose scheme is neither http nor https gets only the www/non-www split: every member
      keeps its scheme, and there are at most 2 x 4 of them. */
  lemma NonHttpKeepsScheme(u: Url)
    requires !IsHttp(u.protocol)
    ensures |PermutationHrefs(u)| <= 8
    ensures forall v :: v in GenerateURLPermutations(u) ==> v.protocol == u.protocol
  {
    var hosts := HostForms(u);
    var schemes := FlatMap(hosts, SchemeForms);
    forall h | h in hosts ensures SchemeForms(h) == [h] {
      assert h == u.(hostname := h.hostname);
    }
    FlatMapLength(hosts, SchemeForms, 1);
    FlatMapLength(schemes, PathForms, 4);
    forall v | v in GenerateURLPermutations(u) ensures v.protocol == u.protocol {
      var w := FlatMapFrom(schemes, PathForms, v);
      PathFormKeepsScheme(w, v);
      var h := FlatMapFrom(hosts, SchemeForms, w);
      assert w == h;
    }
  }

  /** An http(s) URL reaches both schemes on both hosts. */
  lemma HttpReachesBothSchemes(u: Url)
    requires IsHttp(u.protocol)
    ensures forall h :: h in HostForms(u) ==>
      Href(h.(protocol := "http:")) in PermutationHrefs(u) && Href(h.(protocol := "https:")) in PermutationHrefs(u)
  {
    var hosts := HostForms(u);
    var schemes := FlatMap(hosts, SchemeForms);
    forall h | h in hosts
      ensures Href(h.(protocol := "http:")) in PermutationHrefs(u) && Href(h.(protocol := "https:")) in PermutationHrefs(u)
    {
      var hp, hs := h.(protocol := "http:"), h.(protocol := "https:");
      assert SchemeForms(h) == [hp, hs];
      FlatMapHas(hosts, SchemeForms, h, hp);
      FlatMapHas(hosts, SchemeForms, h, hs);
      PathFormsKeepInput(hp);
      PathFormsKeepInput(hs);
      FlatMapHas(schemes, PathForms, hp, hp);
      FlatMapHas(schemes, PathForms, hs, hs);
    }
  }

  /** The root path keeps "/" as both its slash and its bare form, so it never produces an empty
      path. */
  lemma RootPathForms(u: Url)
    requires u.pathname == "/"
    ensures PathForms(u) == [WithPathname(u, "/index.html"), WithPathname(u, "/index.php"), u, u]
  {
    assert u.pathname[|u.pathname| - 1..] == "/";
    assert ShapeOf(u.pathname) == EndsInSlash;
    assert u.pathname + "index.html" == "/index.html";
    assert u.pathname + "index.php" == "/index.php";
  }

  /** The example pair "http://a.com/x" and "http://www.a.com/x/index.html" share a closure. */
  lemma ExampleSharedClosure()
    ensures Href(Url("http:", "www.a.com", "/x/index.html", "", ""))
              in PermutationHrefs(Url("http:", "a.com", "/x", "", ""))
  {
    var u := Url("http:", "a.com", "/x", "", "");
    var w := Url("http:", "www.a.com", "/x", "", "");
    var v := Url("http:", "www.a.com", "/x/index.html", "", "");
    assert u.hostname[0] == 'a';
    assert !StartsWith(u.hostname, "www.");
    assert "www." + u.hostname == "www.a.com";
    assert HostForms(u)[0] == w;
    assert SchemeForms(w)[0] == w;
    FlatMapHas(HostForms(u), SchemeForms, w, w);
    assert w.pathname[1] == 'x';
    assert ShapeOf(w.pathname) == Plain;
    assert IndexDir(w.pathname) == "/x/";
    assert "/x/" + "index.html" == "/x/index.html";
    assert HtmlForm(w) == v;
    FlatMapHas(FlatMap(HostForms(u), SchemeForms), PathForms, w, v);
  }
}
