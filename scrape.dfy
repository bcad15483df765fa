/**
 * The `scrapeModuleUnits` tool: the unit URLs built from a module's first unit URL and
 * its unit uids, the `max_units` cut, one outcome per fetched unit page (status, title
 * fallback chain, optional excerpt), and the two output shapes — the stdio server's
 * numbered lines and the HTTP server's rows. Fetching a page and turning HTML into text
 * are inputs: a page is what the selectors find in it.
 */
module Scrape {
  import opened Wrappers
  import opened Text
  import opened Slugs

  // ---------------------------------------------------------------------------
  // Pages and title detection
  // ---------------------------------------------------------------------------

  /** The selectors tried, in order, for the unit title. */
  const TitleSelectors: seq<string> := ["main h1", "article h1", ".unit-title", "header h1", "h1"]

  /**
   * A parsed unit page: the text of the first element each selector matches ("" when
   * none does), the `og:title` meta content, and the inner HTML of the first `main`,
   * `article` and `body` elements.
   */
  datatype Page = Page(
    firstText: string -> string,
    ogTitle: Option<string>,
    mainHtml: Option<string>,
    articleHtml: Option<string>,
    bodyHtml: Option<string>)

  /** A value JavaScript treats as true: present and not the empty string. */
  predicate Truthy(s: Option<string>) {
    s.Some? && s.value != ""
  }

  /** The trimmed text under title selector `j`. */
  function HeadingText(page: Page, j: nat): (r: string)
    requires j < |TitleSelectors|
    ensures IsTrimmed(r)
  {
    Trim(page.firstText(TitleSelectors[j]))
  }

  /** The trimmed `og:title`, when it is not blank. */
  function OgTitle(page: Page): (r: Option<string>)
    ensures r.Some? ==> r.value != [] && IsTrimmed(r.value)
    ensures r.None? <==> page.ogTitle.None? || Trim(page.ogTitle.value) == []
    ensures r.Some? ==> r.value == Trim(page.ogTitle.value)
  {
    if page.ogTitle.Some? && Trim(page.ogTitle.value) != "" then Some(Trim(page.ogTitle.value)) else None
  }

  /** detectUnitTitle from selector `k` on: the first non-blank heading, else the og:title. */
  function TitleFrom(page: Page, k: nat): (r: Option<string>)
    requires k <= |TitleSelectors|
    ensures r.Some? ==> r.value != [] && IsTrimmed(r.value)
    ensures r.None? ==> OgTitle(page).None?
    decreases |TitleSelectors| - k
  {
    if k == |TitleSelectors| then OgTitle(page)
    else if HeadingText(page, k) != [] then Some(HeadingText(page, k))
    else TitleFrom(page, k + 1)
  }

  /** The first selector, from `k` on, whose trimmed text is not blank supplies the title. */
  lemma {:induction false} TitleFromFirstHeading(page: Page, k: nat, i: nat)
    requires k <= i < |TitleSelectors| && HeadingText(page, i) != []
    requires forall j :: k <= j < i ==> HeadingText(page, j) == []
    ensures TitleFrom(page, k) == Some(HeadingText(page, i))
    decreases i - k
  {
    if k < i {
      assert HeadingText(page, k) == [];
      TitleFromFirstHeading(page, k + 1, i);
      assert TitleFrom(page, k) == TitleFrom(page, k + 1);
    } else {
      assert TitleFrom(page, k) == Some(HeadingText(page, k));
    }
  }

  /** When every selector's text is blank, the title is the trimmed og:title, if any. */
  lemma {:induction false} TitleFromOg(page: Page, k: nat)
    requires k <= |TitleSelectors|
    requires forall j :: k <= j < |TitleSelectors| ==> HeadingText(page, j) == []
    ensures TitleFrom(page, k) == OgTitle(page)
    decreases |TitleSelectors| - k
  {
    if k < |TitleSelectors| {
      TitleFromOg(page, k + 1);
    }
  }

  /** The title detectUnitTitle finds on a page. */
  function DetectedTitle(page: Page): (r: Option<string>)
    ensures r.Some? ==> r.value != [] && IsTrimmed(r.value)
    ensures r.None? ==> OgTitle(page).None? && forall j :: 0 <= j < |TitleSelectors| ==> HeadingText(page, j) == []
  {
    TitleFrom(page, 0)
  }

  /** detectUnitTitle: the loop over the selectors with its early return. */
  method DetectUnitTitle(page: Page) returns (r: Option<string>)
    ensures r == DetectedTitle(page)
  {
    var k := 0;
    while k < |TitleSelectors|
      invariant 0 <= k <= |TitleSelectors|
      invariant TitleFrom(page, k) == TitleFrom(page, 0)
    {
      var t := Trim(page.firstText(TitleSelectors[k]));
      if t != [] {
        return Some(t);
      }
      k := k + 1;
    }
    var og := if page.ogTitle.Some? then Some(Trim(page.ogTitle.value)) else None;
    if og.Some? && og.value != [] {
      return og;
    }
    return None;
  }

  // ---------------------------------------------------------------------------
  // Excerpt
  // ---------------------------------------------------------------------------

  /** `s.slice(0, end)`: a negative `end` counts from the end of `s`. */
  function SliceTo(s: string, end: int): (r: string)
    ensures r <= s
    ensures 0 <= end <= |s| ==> |r| == end
    ensures end < 0 ==> |r| == Max(|s| + end, 0)
  {
    if end >= 0 then (if end <= |s| then s[..end] else s) else s[..Max(|s| + end, 0)]
  }

  /** The ellipsis appended to a cut excerpt. */
  const Ellipsis: char := '…'

  /**
   * `text.length > maxChars ? text.slice(0, maxChars) + "…" : text`: a text that fits is
   * returned as it is; a longer one is cut to its first `maxChars` characters (counted
   * from the end when `maxChars` is negative) and marked with an ellipsis.
   */
  function Truncate(text: string, maxChars: int): (r: string)
    ensures |text| <= maxChars ==> r == text
    ensures |text| > maxChars ==> r != [] && r[|r| - 1] == Ellipsis && r[..|r| - 1] <= text
    ensures 0 <= maxChars ==> |r| <= maxChars + 1
    ensures 0 <= maxChars < |text| ==> |r| == maxChars + 1
    ensures maxChars < 0 ==> |r| == Max(|text| + maxChars, 0) + 1
  {
    if |text| > maxChars then
      var cut := SliceTo(text, maxChars);
      assert (cut + [Ellipsis])[..|cut|] == cut;
      cut + [Ellipsis]
    else text
  }

  /** The HTML the excerpt is taken from: the first of main, article and body that is truthy. */
  function ExcerptRoot(page: Page): (r: string)
    ensures Truthy(page.mainHtml) ==> r == page.mainHtml.value
    ensures !Truthy(page.mainHtml) && Truthy(page.articleHtml) ==> r == page.articleHtml.value
    ensures r != "" ==> r == page.mainHtml.GetOr("") || r == page.articleHtml.GetOr("") || r == page.bodyHtml.GetOr("")
    ensures r == "" <==> !Truthy(page.mainHtml) && !Truthy(page.articleHtml) && !Truthy(page.bodyHtml)
  {
    if Truthy(page.mainHtml) then page.mainHtml.value
    else if Truthy(page.articleHtml) then page.articleHtml.value
    else if Truthy(page.bodyHtml) then page.bodyHtml.value
    else ""
  }

  /** extractBodyText: the trimmed text of the excerpt root, truncated to `maxChars`. */
  function ExtractBodyText(page: Page, maxChars: int, htmlToText: string -> string): (r: string)
    ensures 0 <= maxChars ==> |r| <= maxChars + 1
    ensures |Trim(htmlToText(ExcerptRoot(page)))| <= maxChars ==> r == Trim(htmlToText(ExcerptRoot(page)))
  {
    Truncate(Trim(htmlToText(ExcerptRoot(page))), maxChars)
  }

  // ---------------------------------------------------------------------------
  // Unit pairs and the max_units cut
  // ---------------------------------------------------------------------------

  /** One unit to scrape: its 1-based index, uid, slug and URL. */
  datatype UnitPair = UnitPair(index: nat, uid: string, slug: string, url: string)

  /** `${base}/${index}-${slug}/`. */
  function UnitUrl(base: string, index: nat, slug: string): (r: string)
    ensures base + "/" <= r && r[|r| - 1] == '/'
  {
    base + "/" + NatToString(index) + "-" + slug + "/"
  }

  function MakePair(base: string, uid: string, index: nat): UnitPair {
    var slug := UnitSlugFromUid(uid);
    UnitPair(index, uid, slug, UnitUrl(base, index, slug))
  }

  /** The pairs, one per unit uid in order, numbered from 1. */
  function Pairs(base: string, units: seq<string>): (r: seq<UnitPair>)
    ensures |r| == |units|
    ensures forall i :: 0 <= i < |r| ==> r[i] == MakePair(base, units[i], i + 1)
  {
    seq(|units|, i requires 0 <= i < |units| => MakePair(base, units[i], i + 1))
  }

  /** Every pair's slug is a well-formed slug and its URL lies under the module base. */
  lemma PairsWellFormed(base: string, units: seq<string>, i: nat)
    requires i < |units|
    ensures IsSlug(Pairs(base, units)[i].slug)
    ensures base + "/" <= Pairs(base, units)[i].url
    ensures Pairs(base, units)[i].index == i + 1
    ensures Pairs(base, units)[i].uid == units[i]
    ensures Pairs(base, units)[i].slug == UnitSlugFromUid(units[i])
    ensures Pairs(base, units)[i].url == UnitUrl(base, i + 1, Pairs(base, units)[i].slug)
  {
    var p := Pairs(base, units)[i];
    assert p == MakePair(base, units[i], i + 1);
  }

  /** Two digit strings followed by `-` that share their text share their digits. */
  lemma DigitsBeforeHyphen(d1: string, d2: string, s1: string, s2: string)
    requires AllDigits(d1) && AllDigits(d2)
    requires d1 + "-" + s1 == d2 + "-" + s2
    ensures d1 == d2
  {
    LeadingDigitsOf(d1, "-" + s1);
    LeadingDigitsOf(d2, "-" + s2);
    assert d1 + "-" + s1 == d1 + ("-" + s1);
    assert d2 + "-" + s2 == d2 + ("-" + s2);
  }

  /** Units with different indices get different URLs, whatever their slugs. */
  lemma UnitUrlInjective(base: string, a: nat, b: nat, s1: string, s2: string)
    requires UnitUrl(base, a, s1) == UnitUrl(base, b, s2)
    ensures a == b
  {
    var n := |base| + 1;
    var u := UnitUrl(base, a, s1);
    assert u[n..] == NatToString(a) + "-" + (s1 + "/");
    assert u[n..] == NatToString(b) + "-" + (s2 + "/");
    DigitsBeforeHyphen(NatToString(a), NatToString(b), s1 + "/", s2 + "/");
    NatToStringInjective(a, b);
  }

  /** Units with different indices get different URLs, whatever their slugs. */
  lemma UnitUrlsDiffer(base: string, p: seq<UnitPair>, i: nat, j: nat)
    requires i < |p| && j < |p| && i != j
    requires p[i].url == UnitUrl(base, i + 1, p[i].slug)
    requires p[j].url == UnitUrl(base, j + 1, p[j].slug)
    ensures p[i].url != p[j].url
  {
    if p[i].url == p[j].url {
      UnitUrlInjective(base, i + 1, j + 1, p[i].slug, p[j].slug);
    }
  }

  /** The pairs' URLs are pairwise distinct, so no page is fetched twice. */
  lemma PairUrlsDistinct(base: string, units: seq<string>, i: nat, j: nat)
    requires i < |units| && j < |units| && i != j
    ensures Pairs(base, units)[i].url != Pairs(base, units)[j].url
  {
    PairsWellFormed(base, units, i);
    PairsWellFormed(base, units, j);
    UnitUrlsDiffer(base, Pairs(base, units), i, j);
  }

  /**
   * `args.max_units ? pairs.slice(0, Math.max(0, args.max_units)) : pairs`: an absent or
   * zero `max_units` keeps every pair, a negative one keeps none.
   */
  function Target(pairs: seq<UnitPair>, maxUnits: Option<int>): (r: seq<UnitPair>)
    ensures r <= pairs
    ensures maxUnits.None? || maxUnits.value == 0 ==> r == pairs
    ensures maxUnits.Some? && maxUnits.value < 0 ==> r == []
    ensures maxUnits.Some? && maxUnits.value > 0 ==> |r| == Min(maxUnits.value, |pairs|)
  {
    if maxUnits.None? || maxUnits.value == 0 then pairs
    else pairs[..Min(Max(0, maxUnits.value), |pairs|)]
  }

  // ---------------------------------------------------------------------------
  // Fetching and outcomes
  // ---------------------------------------------------------------------------

  /** What `fetch(url)` gives: a rejected promise, or a response with its status and page. */
  datatype FetchResult = Rejected | Response(status: nat, page: Page)

  /** `res.ok`. */
  predicate IsOk(status: nat) {
    200 <= status <= 299
  }

  /** The outcome record for one unit. */
  datatype UnitOutcome = UnitOutcome(
    index: nat, uid: string, slug: string, url: string,
    ok: bool, status: Option<nat>, title: Option<string>, excerpt: Option<string>)

  /** Whether an excerpt is wanted, and its maximum length. */
  datatype ExcerptOptions = ExcerptOptions(withTextExcerpt: bool, maxChars: int)

  /** `slug.replace(/-/g, " ")`: the title used when the page shows none. */
  function SlugTitle(slug: string): (r: string)
    ensures |r| == |slug| && '-' !in r
  {
    ReplaceChar(slug, '-', ' ')
  }

  /** The outcome of one response. */
  function Outcome(p: UnitPair, status: nat, page: Page, opts: ExcerptOptions, htmlToText: string -> string): (o: UnitOutcome)
    ensures o.index == p.index && o.uid == p.uid && o.slug == p.slug && o.url == p.url
    ensures o.ok <==> IsOk(status)
    ensures !o.ok ==> o.status == Some(status) && o.title.None? && o.excerpt.None?
    ensures o.ok ==> o.status.None? && o.title.Some?
    ensures o.ok && DetectedTitle(page).None? ==> o.title == Some(SlugTitle(p.slug))
    ensures o.ok && DetectedTitle(page).Some? ==> o.title == DetectedTitle(page)
    ensures o.excerpt.Some? <==> o.ok && opts.withTextExcerpt
    ensures o.excerpt.Some? ==> o.excerpt.value == ExtractBodyText(page, opts.maxChars, htmlToText)
  {
    if !IsOk(status) then UnitOutcome(p.index, p.uid, p.slug, p.url, false, Some(status), None, None)
    else
      var title := match DetectedTitle(page) case Some(t) => t case None => SlugTitle(p.slug);
      var excerpt := if opts.withTextExcerpt then Some(ExtractBodyText(page, opts.maxChars, htmlToText)) else None;
      UnitOutcome(p.index, p.uid, p.slug, p.url, true, None, Some(title), excerpt)
  }

  /** The first target whose fetch rejects, if any. */
  function FirstRejected(target: seq<UnitPair>, fetch: string -> FetchResult): (r: Option<nat>)
    ensures r.Some? ==> r.value < |target| && fetch(target[r.value].url).Rejected?
    ensures r.Some? ==> forall j :: 0 <= j < r.value ==> fetch(target[j].url).Response?
    ensures r.None? ==> forall j :: 0 <= j < |target| ==> fetch(target[j].url).Response?
  {
    if target == [] then None
    else if fetch(target[0].url).Rejected? then Some(0)
    else match FirstRejected(target[1..], fetch)
      case None => None
      case Some(k) => Some(k + 1)
  }

  /**
   * The scrape of every target, in target order. A rejected fetch is not caught: the
   * whole call fails, naming the URL of the first rejected target.
   */
  function ScrapeAll(target: seq<UnitPair>, fetch: string -> FetchResult, opts: ExcerptOptions,
                     htmlToText: string -> string): (r: Result<seq<UnitOutcome>, string>)
    ensures r.Err? <==> exists j :: 0 <= j < |target| && fetch(target[j].url).Rejected?
    ensures r.Err? ==> exists j :: 0 <= j < |target| && target[j].url == r.error && fetch(r.error).Rejected?
    ensures r.Ok? ==> |r.value| == |target|
    ensures r.Ok? ==> forall i :: 0 <= i < |target| ==>
              fetch(target[i].url).Response? &&
              r.value[i] == Outcome(target[i], fetch(target[i].url).status, fetch(target[i].url).page, opts, htmlToText)
  {
    match FirstRejected(target, fetch)
    case Some(k) => Err(target[k].url)
    case None =>
      Ok(seq(|target|, i requires 0 <= i < |target| =>
        Outcome(target[i], fetch(target[i].url).status, fetch(target[i].url).page, opts, htmlToText)))
  }

  // ---------------------------------------------------------------------------
  // Tool arguments and the two output shapes
  // ---------------------------------------------------------------------------

  /** The `module` argument: its `firstUnitUrl` and `units`, each possibly missing. */
  datatype ModuleArg = ModuleArg(firstUnitUrl: Option<string>, units: Option<seq<string>>)

  /** The scrape tool's arguments; a missing `max_chars_excerpt` takes the caller's default. */
  datatype ScrapeArgs = ScrapeArgs(
    moduleRef: Option<ModuleArg>,
    firstUnitUrl: Option<string>,
    units: Option<seq<string>>,
    withTextExcerpt: bool,
    maxCharsExcerpt: Option<int>,
    maxUnits: Option<int>)

  /** `a ?? b`. */
  function Coalesce<T>(a: Option<T>, b: Option<T>): (r: Option<T>)
    ensures a.Some? ==> r == a
    ensures a.None? ==> r == b
  {
    if a.Some? then a else b
  }

  /** `args.module?.firstUnitUrl ?? args.firstUnitUrl`. */
  function FirstUnitUrlArg(args: ScrapeArgs): Option<string> {
    Coalesce(if args.moduleRef.Some? then args.moduleRef.value.firstUnitUrl else None, args.firstUnitUrl)
  }

  /** `args.module?.units ?? args.units`. */
  function UnitsArg(args: ScrapeArgs): Option<seq<string>> {
    Coalesce(if args.moduleRef.Some? then args.moduleRef.value.units else None, args.units)
  }

  /** Why a scrape fails: missing input (checked before any fetch), or a rejected fetch. */
  datatype ScrapeError = MissingData | FetchRejected(url: string)

  /** What a successful scrape computed: the base, and one outcome per processed pair. */
  datatype Scraped = Scraped(base: string, target: seq<UnitPair>, outcomes: seq<UnitOutcome>)

  /** The scrape's input is there: a truthy first unit URL and a non-empty unit list. */
  predicate HasInput(args: ScrapeArgs) {
    Truthy(FirstUnitUrlArg(args)) && UnitsArg(args).Some? && UnitsArg(args).value != []
  }

  /** The pairs a scrape with input processes: those of the derived base, cut by `max_units`. */
  function ScrapeTarget(args: ScrapeArgs): seq<UnitPair>
    requires HasInput(args)
  {
    Target(Pairs(DeriveModuleBase(FirstUnitUrlArg(args).value), UnitsArg(args).value), args.maxUnits)
  }

  /** The excerpt options of a call: `max_chars_excerpt`, else the server's default. */
  function ScrapeOptions(args: ScrapeArgs, defaultMaxChars: int): ExcerptOptions {
    ExcerptOptions(args.withTextExcerpt, args.maxCharsExcerpt.GetOr(defaultMaxChars))
  }

  /**
   * The common body of both servers' scrape tools. `defaultMaxChars` is the excerpt length
   * used when `max_chars_excerpt` is missing. Missing input fails before any fetch; with
   * input, the call fails exactly when the fetch of some processed unit rejects, naming the
   * URL ScrapeAll reports, and otherwise outcome i is the outcome of the response to unit i.
   */
  function ScrapeModuleUnits(args: ScrapeArgs, defaultMaxChars: int, fetch: string -> FetchResult,
                             htmlToText: string -> string): (r: Result<Scraped, ScrapeError>)
    ensures r == Err(MissingData) <==> !HasInput(args)
    ensures HasInput(args) ==>
              (r.Err? <==> ScrapeAll(ScrapeTarget(args), fetch, ScrapeOptions(args, defaultMaxChars), htmlToText).Err?)
    ensures r.Err? && r.error.FetchRejected? ==>
              HasInput(args) && r.error.url == ScrapeAll(ScrapeTarget(args), fetch, ScrapeOptions(args, defaultMaxChars), htmlToText).error
    ensures r.Err? && r.error.FetchRejected? ==>
              exists j :: 0 <= j < |ScrapeTarget(args)| && ScrapeTarget(args)[j].url == r.error.url && fetch(r.error.url).Rejected?
    ensures r.Ok? ==> HasInput(args) && r.value.base == DeriveModuleBase(FirstUnitUrlArg(args).value)
    ensures r.Ok? ==> r.value.target == ScrapeTarget(args)
    ensures r.Ok? ==> r.value.outcomes == ScrapeAll(ScrapeTarget(args), fetch, ScrapeOptions(args, defaultMaxChars), htmlToText).value
    ensures r.Ok? ==> |r.value.outcomes| == |r.value.target|
    ensures r.Ok? ==> forall i :: 0 <= i < |r.value.target| ==>
              r.value.outcomes[i].index == r.value.target[i].index && r.value.outcomes[i].uid == r.value.target[i].uid &&
              r.value.outcomes[i].slug == r.value.target[i].slug && r.value.outcomes[i].url == r.value.target[i].url
    ensures HasInput(args) ==>
              (r.Err? <==> exists j :: 0 <= j < |ScrapeTarget(args)| && fetch(ScrapeTarget(args)[j].url).Rejected?)
    ensures r.Ok? ==> forall i :: 0 <= i < |r.value.target| ==>
              fetch(r.value.target[i].url).Response? &&
              r.value.outcomes[i] == Outcome(r.value.target[i], fetch(r.value.target[i].url).status,
                                             fetch(r.value.target[i].url).page, ScrapeOptions(args, defaultMaxChars), htmlToText)
  {
    if !HasInput(args) then Err(MissingData)
    else
      ScrapeTargets(DeriveModuleBase(FirstUnitUrlArg(args).value), ScrapeTarget(args), fetch,
                    ScrapeOptions(args, defaultMaxChars), htmlToText)
  }

  /** The scrape of `target` under `base`: the rejected URL, or the outcomes of every target. */
  function ScrapeTargets(base: string, target: seq<UnitPair>, fetch: string -> FetchResult, opts: ExcerptOptions,
                         htmlToText: string -> string): (r: Result<Scraped, ScrapeError>)
    ensures r.Err? <==> ScrapeAll(target, fetch, opts, htmlToText).Err?
    ensures r.Err? ==> r.error == FetchRejected(ScrapeAll(target, fetch, opts, htmlToText).error)
    ensures r.Ok? ==> r.value == Scraped(base, target, ScrapeAll(target, fetch, opts, htmlToText).value)
    ensures r.Ok? ==> |r.value.outcomes| == |target|
    ensures r.Ok? ==> forall i :: 0 <= i < |target| ==>
              r.value.outcomes[i].index == target[i].index && r.value.outcomes[i].uid == target[i].uid &&
              r.value.outcomes[i].slug == target[i].slug && r.value.outcomes[i].url == target[i].url
  {
    match ScrapeAll(target, fetch, opts, htmlToText)
    case Err(u) => Err(FetchRejected(u))
    case Ok(outcomes) => Ok(Scraped(base, target, outcomes))
  }


  /** `${r.index}. ${r.title}` for a unit that loaded, `${r.index}. [ERROR ${r.status}] ${r.slug}` otherwise. */
  function Line(o: UnitOutcome): (r: string)
    ensures NatToString(o.index) + ". " <= r
  {
    if o.ok then NatToString(o.index) + ". " + o.title.GetOr("")
    else NatToString(o.index) + ". [ERROR " + NatToString(o.status.GetOr(0)) + "] " + o.slug
  }

  /** The number a line starts with is the index of its unit. */
  lemma LineNumber(o: UnitOutcome)
    ensures ParseDigits(LeadingDigits(Line(o))) == o.index
  {
    var d := NatToString(o.index);
    var l := Line(o);
    LeadingDigitsOf(d, l[|d|..]);
    assert l == d + l[|d|..];
    ParseNatToString(o.index);
  }

  /** The stdio server's report: `{base, count, lines, items}`. */
  datatype ScrapeReport = ScrapeReport(base: string, count: nat, lines: seq<string>, items: seq<UnitOutcome>)

  /** The stdio server's `max_chars_excerpt` default. */
  const StdioMaxChars: int := 800

  /** The stdio `scrapeModuleUnits` tool. */
  function StdioScrape(args: ScrapeArgs, fetch: string -> FetchResult, htmlToText: string -> string)
    : (r: Result<ScrapeReport, ScrapeError>)
    ensures r.Err? <==> ScrapeModuleUnits(args, StdioMaxChars, fetch, htmlToText).Err?
    ensures r.Err? ==> r.error == ScrapeModuleUnits(args, StdioMaxChars, fetch, htmlToText).error
    ensures r.Ok? ==> r.value.base == ScrapeModuleUnits(args, StdioMaxChars, fetch, htmlToText).value.base
    ensures r.Ok? ==> r.value.items == ScrapeModuleUnits(args, StdioMaxChars, fetch, htmlToText).value.outcomes
    ensures r.Ok? ==> r.value.count == |r.value.items| == |r.value.lines|
    ensures r.Ok? ==> forall i :: 0 <= i < |r.value.lines| ==> r.value.lines[i] == Line(r.value.items[i])
  {
    match ScrapeModuleUnits(args, StdioMaxChars, fetch, htmlToText)
    case Err(e) => Err(e)
    case Ok(s) => Ok(Report(s))
  }

  /** `{base, count: results.length, lines, items: results}` for the outcomes of a scrape. */
  function Report(s: Scraped): (r: ScrapeReport)
    ensures r.base == s.base && r.items == s.outcomes
    ensures r.count == |r.items| == |r.lines|
    ensures forall i :: 0 <= i < |r.lines| ==> r.lines[i] == Line(r.items[i])
  {
    var lines := seq(|s.outcomes|, i requires 0 <= i < |s.outcomes| => Line(s.outcomes[i]));
    ScrapeReport(s.base, |s.outcomes|, lines, s.outcomes)
  }

  /** The stdio report numbers its lines 1, 2, 3, … in unit order. */
  lemma StdioLinesNumbered(args: ScrapeArgs, fetch: string -> FetchResult, htmlToText: string -> string, i: nat)
    requires StdioScrape(args, fetch, htmlToText).Ok?
    requires i < |StdioScrape(args, fetch, htmlToText).value.lines|
    ensures ParseDigits(LeadingDigits(StdioScrape(args, fetch, htmlToText).value.lines[i])) == i + 1
  {
    var s := ScrapeModuleUnits(args, StdioMaxChars, fetch, htmlToText).value;
    var report := StdioScrape(args, fetch, htmlToText).value;
    var units := UnitsArg(args).value;
    assert s.target[i] == Pairs(s.base, units)[i];
    PairsWellFormed(s.base, units, i);
    LineNumber(report.items[i]);
  }

  /** Without `max_chars_excerpt`, every stdio excerpt is at most 800 characters and `…`. */
  lemma StdioExcerptDefault(args: ScrapeArgs, fetch: string -> FetchResult, htmlToText: string -> string, i: nat)
    requires args.maxCharsExcerpt.None?
    requires StdioScrape(args, fetch, htmlToText).Ok?
    requires i < |StdioScrape(args, fetch, htmlToText).value.items|
    ensures StdioScrape(args, fetch, htmlToText).value.items[i].excerpt.Some? ==>
              |StdioScrape(args, fetch, htmlToText).value.items[i].excerpt.value| <= StdioMaxChars + 1
  {
    var s := ScrapeModuleUnits(args, StdioMaxChars, fetch, htmlToText).value;
    assert ScrapeOptions(args, StdioMaxChars).maxChars == StdioMaxChars;
    assert s.outcomes[i] == Outcome(s.target[i], fetch(s.target[i].url).status, fetch(s.target[i].url).page,
                                    ScrapeOptions(args, StdioMaxChars), htmlToText);
  }

  /** One row of the HTTP server's scrape answer. */
  datatype Row = Row(description: string, codeSnippet: string, link: string, language: string)

  const NoContent: string := "No content available"

  /** The HTTP server's `max_chars_excerpt` default (the default of `extractBodyText`). */
  const HttpMaxChars: int := 20000

  /** `{description, codeSnippet: r.text_excerpt || "No content available", link: r.url, language}`. */
  function ToRow(o: UnitOutcome): (r: Row)
    ensures r.link == o.url && r.language == "markdown"
    ensures r.codeSnippet != []
    ensures Truthy(o.excerpt) ==> r.codeSnippet == o.excerpt.value
  {
    Row(Line(o), if Truthy(o.excerpt) then o.excerpt.value else NoContent, o.url, "markdown")
  }

  /** The HTTP `scrapeModuleUnits` tool (callScrapeModuleUnits). */
  function HttpScrape(args: ScrapeArgs, fetch: string -> FetchResult, htmlToText: string -> string)
    : (r: Result<seq<Row>, ScrapeError>)
    ensures r.Err? <==> ScrapeModuleUnits(args, HttpMaxChars, fetch, htmlToText).Err?
    ensures r.Err? ==> r.error == ScrapeModuleUnits(args, HttpMaxChars, fetch, htmlToText).error
    ensures r.Ok? ==> r.value == Rows(ScrapeModuleUnits(args, HttpMaxChars, fetch, htmlToText).value.outcomes)
  {
    match ScrapeModuleUnits(args, HttpMaxChars, fetch, htmlToText)
    case Err(e) => Err(e)
    case Ok(s) => Ok(Rows(s.outcomes))
  }

  /** Without `max_chars_excerpt`, every HTTP row's snippet is at most 20000 characters and `…`. */
  lemma HttpExcerptDefault(args: ScrapeArgs, fetch: string -> FetchResult, htmlToText: string -> string, i: nat)
    requires args.maxCharsExcerpt.None?
    requires HttpScrape(args, fetch, htmlToText).Ok?
    requires i < |HttpScrape(args, fetch, htmlToText).value|
    ensures |HttpScrape(args, fetch, htmlToText).value[i].codeSnippet| <= HttpMaxChars + 1
  {
    var s := ScrapeModuleUnits(args, HttpMaxChars, fetch, htmlToText).value;
    assert ScrapeOptions(args, HttpMaxChars).maxChars == HttpMaxChars;
    var o := s.outcomes[i];
    assert o == Outcome(s.target[i], fetch(s.target[i].url).status, fetch(s.target[i].url).page,
                        ScrapeOptions(args, HttpMaxChars), htmlToText);
    assert HttpScrape(args, fetch, htmlToText).value[i] == ToRow(o);
  }

  /** `results.map(...)`: one row per outcome, in order. */
  function Rows(outcomes: seq<UnitOutcome>): (r: seq<Row>)
    ensures |r| == |outcomes|
    ensures forall i :: 0 <= i < |r| ==> r[i].link == outcomes[i].url && r[i].description == Line(outcomes[i])
    ensures forall i :: 0 <= i < |r| ==> r[i].codeSnippet != [] && r[i].language == "markdown"
  {
    seq(|outcomes|, i requires 0 <= i < |outcomes| => ToRow(outcomes[i]))
  }
}
