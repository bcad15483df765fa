/**
 * Worked examples for the unit-URL helpers: the base of a first-unit URL that carries
 * a query string, and the URLs built for the units `learn.wwl.foo.alpha` and `beta`.
 */
module UrlScenarios {
  import opened Wrappers
  import opened Text
  import opened Slugs
  import opened Scrape

  const FirstUnit: string := "https://x/training/modules/foo/1-alpha/"
  const Query: string := "WT.mc_id=api_CatalogApi"
  const ModuleBase: string := "https://x/training/modules/foo"

  /** A `/modules/` match starts with `/m`. */
  lemma MarkerStart(v: string, i: nat)
    requires MarkerAt(v, i)
    ensures v[i] == '/' && v[i + 1] == 'm'
  {
    assert v[i..i + |ModulesMarker|][0] == v[i];
    assert v[i..i + |ModulesMarker|][1] == v[i + 1];
  }

  lemma MarkerAt18(v: string)
    requires v == FirstUnit
    ensures MarkerAt(v, 18)
  {
    assert v[18..27] == ModulesMarker;
  }

  /** The only `/modules/` of the first unit's URL is the one at position 18. */
  lemma OnlyMarker(v: string, k: nat)
    requires v == FirstUnit
    requires MarkerAt(v, k)
    ensures k == 18
  {
    MarkerStart(v, k);
  }

  lemma FooSegment(v: string)
    requires v == FirstUnit
    ensures SegmentEnd(v, 27) == 30
  {
    assert SegmentEnd(v, 30) == 30;
    assert SegmentEnd(v, 29) == 30;
    assert SegmentEnd(v, 28) == 30;
  }

  lemma FooPrefix(v: string, b: string)
    requires v == FirstUnit && b == ModuleBase
    ensures v[..30] == b
  {
  }

  lemma FirstUnitBase(v: string, b: string)
    requires v == FirstUnit && b == ModuleBase
    ensures BaseOf(v) == b
  {
    MarkerAt18(v);
    var k: nat :| 18 <= k && MarkerAt(v, k) && BaseOf(v) == v[..SegmentEnd(v, k + |ModulesMarker|)];
    OnlyMarker(v, k);
    FooSegment(v);
    FooPrefix(v, b);
  }

  /**
   * The module base of `https://x/training/modules/foo/1-alpha/?WT.mc_id=api_CatalogApi`
   * is `https://x/training/modules/foo`: the query string and the unit segment go.
   */
  lemma DeriveModuleBaseExample(url: string)
    requires url == FirstUnit + "?" + Query
    ensures DeriveModuleBase(url) == ModuleBase
  {
    StripQueryOfQuery(FirstUnit, Query);
    FirstUnitBase(FirstUnit, ModuleBase);
  }

  lemma AlphaNormal(slug: string)
    requires slug == "alpha"
    ensures NormalizeSlug(slug) == slug
  {
    NormalizeSlugOfSlug(slug);
  }

  lemma AlphaAfterDot(uid: string, slug: string)
    requires uid == "learn.wwl.foo.alpha" && slug == "alpha"
    ensures AfterLastDot(uid) == slug
  {
    AfterLastDotUnique(uid, slug);
  }

  lemma AlphaStripped(uid: string)
    requires uid == "learn.wwl.foo.alpha"
    ensures UnitSlugFromUid(uid) == NormalizeSlug(AfterLastDot(uid))
  {
    UnitSlugIgnoresWwlPrefix(uid);
  }

  /** `learn.wwl.foo.alpha` has the slug `alpha`. */
  lemma AlphaSlug(uid: string, slug: string)
    requires uid == "learn.wwl.foo.alpha" && slug == "alpha"
    ensures UnitSlugFromUid(uid) == slug
  {
    AlphaStripped(uid);
    AlphaAfterDot(uid, slug);
    AlphaNormal(slug);
  }

  /** `beta` has the slug `beta`. */
  lemma BetaSlug(uid: string)
    requires uid == "beta"
    ensures UnitSlugFromUid(uid) == uid
  {
    assert StripWwlPrefix(uid) == uid;
    AfterLastDotUnique(uid, uid);
    NormalizeSlugOfSlug(uid);
  }

  lemma AlphaUrl(base: string, slug: string)
    requires base == ModuleBase && slug == "alpha"
    ensures UnitUrl(base, 1, slug) == "https://x/training/modules/foo/1-alpha/"
  {
    assert NatToString(1) == "1";
  }

  lemma BetaUrl(base: string, slug: string)
    requires base == ModuleBase && slug == "beta"
    ensures UnitUrl(base, 2, slug) == "https://x/training/modules/foo/2-beta/"
  {
    assert NatToString(2) == "2";
  }

  /** Units `learn.wwl.foo.alpha` and `beta` under `…/modules/foo` are fetched at `…/foo/1-alpha/` and `…/foo/2-beta/`. */
  lemma PairsExample(base: string, units: seq<string>)
    requires base == ModuleBase && units == ["learn.wwl.foo.alpha", "beta"]
    ensures Pairs(base, units)[0].url == "https://x/training/modules/foo/1-alpha/"
    ensures Pairs(base, units)[1].url == "https://x/training/modules/foo/2-beta/"
  {
    PairsWellFormed(base, units, 0);
    PairsWellFormed(base, units, 1);
    AlphaSlug(units[0], "alpha");
    BetaSlug(units[1]);
    AlphaUrl(base, Pairs(base, units)[0].slug);
    BetaUrl(base, Pairs(base, units)[1].slug);
  }
}
