/**
 * The unit-URL helpers of the scraper (src/server.ts:51-95, duplicated at
 * src/http-server.ts:152-177): the module base derived from the first unit's URL,
 * the slug derived from a unit's uid, and the slug normalisation.
 */
module Slugs {
  import opened Wrappers
  import opened Text

  // ---------------------------------------------------------------------------
  // deriveModuleBase
  // ---------------------------------------------------------------------------

  /** `url.split("?")[0]`: the text before the first `?`. */
  function StripQuery(url: string): (r: string)
    ensures r <= url
    ensures '?' !in r
    ensures |r| < |url| ==> url[|r|] == '?'
  {
    if url == [] || url[0] == '?' then [] else [url[0]] + StripQuery(url[1..])
  }

  /** The three facts StripQuery ensures determine its result. */
  lemma {:induction false} StripQueryUnique(url: string, r: string)
    requires r <= url && '?' !in r && (|r| < |url| ==> url[|r|] == '?')
    ensures r == StripQuery(url)
  {
  }

  /** Removing the query string twice is removing it once. */
  lemma StripQueryIdempotent(url: string)
    ensures StripQuery(StripQuery(url)) == StripQuery(url)
  {
    StripQueryUnique(StripQuery(url), StripQuery(url));
  }

  /** A query string appended after `?` is cut off again. */
  lemma StripQueryOfQuery(url: string, query: string)
    requires '?' !in url
    ensures StripQuery(url + "?" + query) == url
  {
    StripQueryUnique(url + "?" + query, url);
  }

  const ModulesMarker: string := "/modules/"

  /**
   * The regular expression `^(.*\/modules\/[^\/]+)` can match with its `.*` ending at
   * `i`: `/modules/` starts at `i`, is followed by a character other than `/`, and the
   * text before `i` holds no line terminator (which `.` does not match).
   */
  predicate MarkerAt(v: string, i: nat) {
    && i + |ModulesMarker| < |v|
    && v[i..i + |ModulesMarker|] == ModulesMarker
    && v[i + |ModulesMarker|] != '/'
    && forall j :: 0 <= j < i ==> !IsLineTerminator(v[j])
  }

  /** The greedy `.*` backtracks from the right: the match is the last MarkerAt. */
  function LastMarker(v: string, i: nat): (r: Option<nat>)
    requires i <= |v|
    ensures r.Some? ==> r.value <= i && MarkerAt(v, r.value)
    ensures r.Some? ==> forall j :: r.value < j <= i ==> !MarkerAt(v, j)
    ensures r.None? ==> forall j :: 0 <= j <= i ==> !MarkerAt(v, j)
  {
    if MarkerAt(v, i) then Some(i) else if i == 0 then None else LastMarker(v, i - 1)
  }

  /** `[^\/]+` is greedy: the segment runs up to the next `/` or the end. */
  function SegmentEnd(v: string, k: nat): (e: nat)
    requires k <= |v|
    ensures k <= e <= |v|
    ensures forall j :: k <= j < e ==> v[j] != '/'
    ensures e < |v| ==> v[e] == '/'
    decreases |v| - k
  {
    if k == |v| || v[k] == '/' then k else SegmentEnd(v, k + 1)
  }

  /** `parts = v.split("/"); parts.pop(); parts.join("/")`: the text before the last `/`. */
  function BeforeLastSlash(v: string): (r: string)
    ensures r <= v
    ensures '/' in v ==> |r| < |v| && v[|r|] == '/' && '/' !in v[|r| + 1..]
    ensures '/' !in v ==> r == []
  {
    if v == [] then []
    else if v[|v| - 1] == '/' then v[..|v| - 1]
    else
      var r := BeforeLastSlash(v[..|v| - 1]);
      assert v[..|v| - 1][..|r|] == v[..|r|];
      assert '/' in v ==> '/' in v[..|v| - 1];
      r
  }

  /**
   * The match of `^(.*\/modules\/[^\/]+)` on a query-free URL, or else the fallback:
   * the text up to and including the last `/modules/<segment>`, or the text before the
   * last `/` when there is no such segment.
   */
  function BaseOf(v: string): (r: string)
    ensures r <= v
    ensures forall i: nat :: MarkerAt(v, i) ==>
      exists k: nat :: i <= k && MarkerAt(v, k) && r == v[..SegmentEnd(v, k + |ModulesMarker|)]
    ensures (forall i: nat :: !MarkerAt(v, i)) ==> r == BeforeLastSlash(v)
  {
    match LastMarker(v, |v|)
    case Some(k) => v[..SegmentEnd(v, k + |ModulesMarker|)]
    case None =>
      assert forall i: nat :: !MarkerAt(v, i);
      BeforeLastSlash(v)
  }

  /** deriveModuleBase: the base of the first unit's URL, its query string ignored. */
  function DeriveModuleBase(firstUnitUrl: string): (r: string)
    ensures r <= firstUnitUrl
  {
    BaseOf(StripQuery(firstUnitUrl))
  }

  /** The base of a URL carrying a query string is the base of the URL without it. */
  lemma DeriveModuleBaseIgnoresQuery(url: string, query: string)
    requires '?' !in url
    ensures DeriveModuleBase(url + "?" + query) == DeriveModuleBase(url)
  {
    StripQueryOfQuery(url, query);
    StripQueryUnique(url, url);
  }

  /** Without a `/modules/` segment, a URL ending in `/` loses just that slash. */
  lemma DeriveModuleBaseDropsTrailingSlash(url: string)
    requires '?' !in url && url != [] && url[|url| - 1] == '/'
    requires forall i: nat :: !MarkerAt(url, i)
    ensures DeriveModuleBase(url) == url[..|url| - 1]
  {
    StripQueryUnique(url, url);
  }

  // ---------------------------------------------------------------------------
  // normalizeSlug
  // ---------------------------------------------------------------------------

  predicate IsSlugChar(c: char) {
    ('a' <= c <= 'z') || ('0' <= c <= '9') || c == '-'
  }

  predicate NoDoubleHyphen(s: string) {
    forall i :: 0 <= i < |s| - 1 ==> !(s[i] == '-' && s[i + 1] == '-')
  }

  /** What normalizeSlug promises of its output. */
  predicate IsSlug(s: string) {
    && (forall i :: 0 <= i < |s| ==> IsSlugChar(s[i]))
    && NoDoubleHyphen(s)
    && (s != [] ==> s[0] != '-' && s[|s| - 1] != '-')
  }

  /** `.replace(/\s+/g, "-")`: every maximal run of white space becomes one `-`. */
  function SpaceRunsToHyphen(s: string): (r: string)
    ensures |r| <= |s|
    ensures forall i :: 0 <= i < |r| ==> !IsJsSpace(r[i])
    decreases |s|
  {
    if s == [] then []
    else if IsJsSpace(s[0]) then "-" + SpaceRunsToHyphen(TrimStart(s[1..]))
    else [s[0]] + SpaceRunsToHyphen(s[1..])
  }

  /** `.replace(/[^a-z0-9-]/g, "-")`: each character outside `[a-z0-9-]` becomes `-`, the others stay. */
  function HyphenateOthers(s: string): (r: string)
    ensures |r| == |s|
    ensures forall i :: 0 <= i < |s| ==> IsSlugChar(r[i])
    ensures forall i :: 0 <= i < |s| && IsSlugChar(s[i]) ==> r[i] == s[i]
    ensures forall i :: 0 <= i < |s| && !IsSlugChar(s[i]) ==> r[i] == '-'
  {
    seq(|s|, i requires 0 <= i < |s| => if IsSlugChar(s[i]) then s[i] else '-')
  }

  /** `s` without its hyphens. */
  function Dehyphen(s: string): string {
    if s == [] then [] else (if s[0] == '-' then [] else [s[0]]) + Dehyphen(s[1..])
  }

  /** `.replace(/-+/g, "-")`: every run of hyphens becomes one. */
  function CollapseHyphens(s: string): (r: string)
    ensures NoDoubleHyphen(r)
    ensures |r| <= |s|
    ensures s != [] ==> r != [] && r[0] == s[0]
    ensures (forall i :: 0 <= i < |s| ==> IsSlugChar(s[i])) ==>
              forall i :: 0 <= i < |r| ==> IsSlugChar(r[i])
  {
    if |s| <= 1 then s
    else if s[0] == '-' && s[1] == '-' then CollapseHyphens(s[1..])
    else
      var rest := CollapseHyphens(s[1..]);
      NoDoubleHyphenCons(s[0], rest);
      [s[0]] + rest
  }

  /** Only hyphens go: the other characters stay in order, and the last character is kept. */
  lemma {:induction false} CollapseHyphensKeeps(s: string)
    ensures Dehyphen(CollapseHyphens(s)) == Dehyphen(s)
    ensures s != [] ==> CollapseHyphens(s)[|CollapseHyphens(s)| - 1] == s[|s| - 1]
  {
    if |s| > 1 {
      CollapseHyphensKeeps(s[1..]);
      DehyphenCons(s[0], s[1..]);
      assert s == [s[0]] + s[1..];
      if !(s[0] == '-' && s[1] == '-') {
        CollapseHyphensKeepsFirst(s);
        DehyphenCons(s[0], CollapseHyphens(s[1..]));
      }
    }
  }

  lemma DehyphenCons(c: char, t: string)
    ensures Dehyphen([c] + t) == (if c == '-' then [] else [c]) + Dehyphen(t)
  {
    assert ([c] + t)[1..] == t;
  }

  lemma NoDoubleHyphenCons(c: char, t: string)
    requires NoDoubleHyphen(t) && (t != [] && c == '-' ==> t[0] != '-')
    ensures NoDoubleHyphen([c] + t)
  {
    var s := [c] + t;
    forall i | 0 <= i < |s| - 1 ensures !(s[i] == '-' && s[i + 1] == '-') {
      if i > 0 {
        assert s[i] == t[i - 1] && s[i + 1] == t[i];
      }
    }
  }

  /** What is left of a hyphen-free-at-the-seams text once one hyphen goes from each end is a slug. */
  lemma TrimHyphensIsSlug(c: string)
    requires forall i :: 0 <= i < |c| ==> IsSlugChar(c[i])
    requires NoDoubleHyphen(c)
    ensures IsSlug(TrimHyphens(c))
  {
    var a := if c != [] && c[0] == '-' then 1 else 0;
    var t := c[a..];
    var b := if t != [] && t[|t| - 1] == '-' then |c| - 1 else |c|;
    assert TrimHyphens(c) == c[a..b];
    var r := c[a..b];
    assert forall i :: 0 <= i < |r| ==> r[i] == c[a + i];
  }

  /**
   * `.replace(/^-|-$/g, "")`: one leading and one trailing hyphen go; a lone `-`
   * is matched once, by `^-`.
   */
  function TrimHyphens(s: string): (r: string)
    ensures |s| - 2 <= |r| <= |s|
  {
    var t := if s != [] && s[0] == '-' then s[1..] else s;
    if t != [] && t[|t| - 1] == '-' then t[..|t| - 1] else t
  }

  /**
   * Every text is `m`, `-m`, `m-` or `-m-` for an `m` that neither starts nor ends with
   * the hyphen next to it, and TrimHyphens gives `m`: exactly one hyphen goes from each
   * end that has one.
   */
  lemma TrimHyphensSpec(m: string)
    ensures (m == [] || (m[0] != '-' && m[|m| - 1] != '-')) ==> TrimHyphens(m) == m
    ensures TrimHyphens("-" + m + "-") == m
    ensures (m == [] || m[|m| - 1] != '-') ==> TrimHyphens("-" + m) == m
    ensures (m == [] || m[0] != '-') ==> TrimHyphens(m + "-") == m
  {
    assert ("-" + m + "-")[1..] == m + "-";
    assert ("-" + m)[1..] == m;
    assert (m + "-")[..|m|] == m;
  }

  /** normalizeSlug: its output is made of `[a-z0-9-]`, has no `--`, and no hyphen at either end. */
  function NormalizeSlug(s: string): (r: string)
    ensures IsSlug(r)
  {
    var c := CollapseHyphens(HyphenateOthers(SpaceRunsToHyphen(Lower(s))));
    TrimHyphensIsSlug(c);
    TrimHyphens(c)
  }

  lemma {:induction false} SpaceRunsToHyphenNoSpace(s: string)
    requires forall i :: 0 <= i < |s| ==> !IsJsSpace(s[i])
    ensures SpaceRunsToHyphen(s) == s
  {
    if s != [] {
      SpaceRunsToHyphenNoSpace(s[1..]);
    }
  }

  lemma NoDoubleHyphenTail(s: string)
    requires s != [] && NoDoubleHyphen(s)
    ensures NoDoubleHyphen(s[1..])
  {
    forall i | 0 <= i < |s| - 2 ensures !(s[1..][i] == '-' && s[1..][i + 1] == '-') {
      assert s[1..][i] == s[i + 1] && s[1..][i + 1] == s[i + 2];
    }
  }

  lemma CollapseHyphensKeepsFirst(s: string)
    requires |s| > 1 && !(s[0] == '-' && s[1] == '-')
    ensures CollapseHyphens(s) == [s[0]] + CollapseHyphens(s[1..])
  {
  }

  lemma {:induction false} CollapseHyphensSingle(s: string)
    requires NoDoubleHyphen(s)
    ensures CollapseHyphens(s) == s
  {
    if |s| > 1 {
      NoDoubleHyphenTail(s);
      CollapseHyphensSingle(s[1..]);
      CollapseHyphensKeepsFirst(s);
      assert s == [s[0]] + s[1..];
    }
  }

  /** A slug is left unchanged by normalizeSlug. */
  lemma NormalizeSlugOfSlug(s: string)
    requires IsSlug(s)
    ensures NormalizeSlug(s) == s
  {
    SlugCharsPlain(s);
    SpaceRunsToHyphenNoSpace(s);
    assert HyphenateOthers(s) == s;
    CollapseHyphensSingle(s);
    assert TrimHyphens(s) == s;
  }

  /** Text made of `[a-z0-9-]` has no capital letter and no white space. */
  lemma SlugCharsPlain(s: string)
    requires forall i :: 0 <= i < |s| ==> IsSlugChar(s[i])
    ensures Lower(s) == s
    ensures forall i :: 0 <= i < |s| ==> !IsJsSpace(s[i])
  {
    assert forall i :: 0 <= i < |s| ==> Lower(s)[i] == s[i];
  }

  /** normalizeSlug is idempotent. */
  lemma NormalizeSlugIdempotent(s: string)
    ensures NormalizeSlug(NormalizeSlug(s)) == NormalizeSlug(s)
  {
    NormalizeSlugOfSlug(NormalizeSlug(s));
  }

  // ---------------------------------------------------------------------------
  // normalizeSlug, word by word
  // ---------------------------------------------------------------------------

  /** The letters and digits of a slug; every other character separates words. */
  predicate IsWordChar(c: char) {
    ('a' <= c <= 'z') || ('0' <= c <= '9')
  }

  predicate StartsWithWordChar(s: string) {
    s != [] && IsWordChar(s[0])
  }

  /** The maximal runs of `[a-z0-9]` in `s`, in order. */
  function Words(s: string): (r: seq<string>)
    ensures forall i :: 0 <= i < |r| ==> r[i] != []
    ensures forall i, j :: 0 <= i < |r| && 0 <= j < |r[i]| ==> IsWordChar(r[i][j])
    ensures StartsWithWordChar(s) ==> r != []
  {
    if s == [] then []
    else
      var w := Words(s[1..]);
      if !IsWordChar(s[0]) then w
      else if StartsWithWordChar(s[1..]) then
        var first := [s[0]] + w[0];
        assert forall j :: 0 <= j < |first| ==> IsWordChar(first[j]);
        [first] + w[1..]
      else [[s[0]]] + w
  }

  /** The words joined by single hyphens; nothing when there are none. */
  function Hyphenated(words: seq<string>): string {
    if words == [] then [] else Join(words, '-')
  }

  lemma WordsSeparator(c: char, a: string)
    requires !IsWordChar(c)
    ensures Words([c] + a) == Words(a) && !StartsWithWordChar([c] + a)
  {
    assert ([c] + a)[1..] == a;
  }

  /** Words only looks at the tail through its words and whether it starts with a word character. */
  lemma WordsCons(c: char, a: string, b: string)
    requires Words(a) == Words(b) && StartsWithWordChar(a) == StartsWithWordChar(b)
    ensures Words([c] + a) == Words([c] + b) && StartsWithWordChar([c] + a) == StartsWithWordChar([c] + b)
  {
    assert ([c] + a)[1..] == a;
    assert ([c] + b)[1..] == b;
  }

  lemma {:induction false} WordsTrimStart(s: string)
    ensures Words(TrimStart(s)) == Words(s)
  {
    if s != [] && IsJsSpace(s[0]) {
      WordsTrimStart(s[1..]);
    }
  }

  lemma {:induction false} WordsSpaceRuns(s: string)
    ensures Words(SpaceRunsToHyphen(s)) == Words(s)
    ensures StartsWithWordChar(SpaceRunsToHyphen(s)) == StartsWithWordChar(s)
    decreases |s|
  {
    if s != [] {
      if IsJsSpace(s[0]) {
        var t := TrimStart(s[1..]);
        WordsSpaceRuns(t);
        WordsTrimStart(s[1..]);
        WordsSeparator('-', SpaceRunsToHyphen(t));
      } else {
        WordsSpaceRuns(s[1..]);
        WordsCons(s[0], SpaceRunsToHyphen(s[1..]), s[1..]);
        assert s == [s[0]] + s[1..];
      }
    }
  }

  lemma HyphenateOthersCons(s: string)
    requires s != []
    ensures HyphenateOthers(s) == [if IsSlugChar(s[0]) then s[0] else '-'] + HyphenateOthers(s[1..])
  {
    assert HyphenateOthers(s)[1..] == HyphenateOthers(s[1..]);
  }

  /** Putting `d` for `c` in front changes no word when `d` is `c` or both separate. */
  lemma WordsSameKindCons(c: char, d: char, a: string, b: string)
    requires IsWordChar(c) ==> d == c
    requires !IsWordChar(c) ==> !IsWordChar(d)
    requires Words(a) == Words(b) && StartsWithWordChar(a) == StartsWithWordChar(b)
    ensures Words([d] + a) == Words([c] + b) && StartsWithWordChar([d] + a) == StartsWithWordChar([c] + b)
  {
    if IsWordChar(c) {
      WordsCons(c, a, b);
    } else {
      WordsSeparator(d, a);
      WordsSeparator(c, b);
    }
  }

  lemma {:induction false} WordsHyphenateOthers(s: string)
    ensures Words(HyphenateOthers(s)) == Words(s)
    ensures StartsWithWordChar(HyphenateOthers(s)) == StartsWithWordChar(s)
  {
    if s != [] {
      HyphenateOthersCons(s);
      WordsHyphenateOthers(s[1..]);
      WordsSameKindCons(s[0], if IsSlugChar(s[0]) then s[0] else '-', HyphenateOthers(s[1..]), s[1..]);
      assert s == [s[0]] + s[1..];
    }
  }

  lemma {:induction false} WordsCollapseHyphens(s: string)
    ensures Words(CollapseHyphens(s)) == Words(s)
    ensures StartsWithWordChar(CollapseHyphens(s)) == StartsWithWordChar(s)
  {
    if |s| > 1 {
      WordsCollapseHyphens(s[1..]);
      assert s == [s[0]] + s[1..];
      if s[0] == '-' && s[1] == '-' {
        WordsSeparator('-', s[1..]);
      } else {
        WordsCons(s[0], CollapseHyphens(s[1..]), s[1..]);
      }
    }
  }

  lemma {:induction false} WordsSeparatorLast(s: string, c: char)
    requires !IsWordChar(c)
    ensures Words(s + [c]) == Words(s)
    ensures StartsWithWordChar(s + [c]) == StartsWithWordChar(s)
  {
    if s == [] {
      WordsSeparator(c, []);
    } else {
      WordsSeparatorLast(s[1..], c);
      assert s + [c] == [s[0]] + (s[1..] + [c]);
      WordsCons(s[0], s[1..] + [c], s[1..]);
      assert s == [s[0]] + s[1..];
    }
  }

  lemma WordsTrimHyphens(s: string)
    ensures Words(TrimHyphens(s)) == Words(s)
  {
    var t := if s != [] && s[0] == '-' then s[1..] else s;
    if s != [] && s[0] == '-' {
      WordsSeparator('-', s[1..]);
      assert s == [s[0]] + s[1..];
    }
    if t != [] && t[|t| - 1] == '-' {
      WordsSeparatorLast(t[..|t| - 1], '-');
      assert t == t[..|t| - 1] + ['-'];
    }
  }

  /** `Join` with a letter put in front of the first part. */
  lemma JoinFrontChar(c: char, p: seq<string>, sep: char)
    requires |p| >= 1
    ensures Join([[c] + p[0]] + p[1..], sep) == [c] + Join(p, sep)
  {
    var q := [[c] + p[0]] + p[1..];
    if |p| > 1 {
      assert q[1..] == p[1..];
    }
  }

  lemma JoinAfterSingle(c: char, p: seq<string>, sep: char)
    requires |p| >= 1
    ensures Join([[c]] + p, sep) == [c] + [sep] + Join(p, sep)
  {
    assert ([[c]] + p)[1..] == p;
  }

  /** Two word characters in a row are in the same word. */
  lemma WordsGlue(v: string)
    requires |v| > 1 && IsWordChar(v[0]) && IsWordChar(v[1])
    ensures Words(v) == [[v[0]] + Words(v[1..])[0]] + Words(v[1..])[1..]
  {
  }

  /** A hyphen ends a word. */
  lemma WordsAfterHyphen(v: string)
    requires |v| > 2 && IsWordChar(v[0]) && v[1] == '-'
    ensures Words(v) == [[v[0]]] + Words(v[2..])
  {
    assert v[1..] == ['-'] + v[2..];
    WordsSeparator('-', v[2..]);
  }

  lemma SlugTail(v: string)
    requires IsSlug(v) && |v| > 1 && v[1] != '-'
    ensures IsSlug(v[1..])
  {
    assert forall i :: 0 <= i < |v| - 1 ==> v[1..][i] == v[i + 1];
  }

  lemma SlugAfterHyphen(v: string)
    requires IsSlug(v) && |v| > 1 && v[1] == '-'
    ensures |v| > 2 && IsSlug(v[2..])
  {
    assert forall i :: 0 <= i < |v| - 2 ==> v[2..][i] == v[i + 2];
  }

  /** A slug is its words joined by single hyphens. */
  lemma {:induction false} SlugIsHyphenatedWords(v: string)
    requires IsSlug(v)
    ensures v == Hyphenated(Words(v))
    decreases |v|
  {
    if v != [] {
      assert IsWordChar(v[0]);
      if |v| == 1 {
        assert Words(v) == [[v[0]]];
      } else if v[1] != '-' {
        SlugTail(v);
        SlugIsHyphenatedWords(v[1..]);
        WordsGlue(v);
        JoinFrontChar(v[0], Words(v[1..]), '-');
        assert v == [v[0]] + v[1..];
      } else {
        SlugAfterHyphen(v);
        SlugIsHyphenatedWords(v[2..]);
        WordsAfterHyphen(v);
        JoinAfterSingle(v[0], Words(v[2..]), '-');
        assert v == [v[0]] + [v[1]] + v[2..];
      }
    }
  }

  /**
   * normalizeSlug keeps the letters and digits of the lowercased text in order and puts
   * exactly one hyphen between two runs of them, wherever anything else separated them:
   * it is the text's words joined by single hyphens.
   */
  lemma NormalizeSlugWords(s: string)
    ensures NormalizeSlug(s) == Hyphenated(Words(Lower(s)))
  {
    var a := SpaceRunsToHyphen(Lower(s));
    var b := HyphenateOthers(a);
    var c := CollapseHyphens(b);
    WordsSpaceRuns(Lower(s));
    WordsHyphenateOthers(a);
    WordsCollapseHyphens(b);
    WordsTrimHyphens(c);
    assert NormalizeSlug(s) == TrimHyphens(c);
    SlugIsHyphenatedWords(NormalizeSlug(s));
  }

  // ---------------------------------------------------------------------------
  // unitSlugFromUid
  // ---------------------------------------------------------------------------

  const WwlPrefix: string := "learn.wwl."

  /** `uid.replace(/^learn\.wwl\./, "")`. */
  function StripWwlPrefix(uid: string): (r: string)
    ensures WwlPrefix <= uid ==> uid == WwlPrefix + r
    ensures !(WwlPrefix <= uid) ==> r == uid
  {
    if WwlPrefix <= uid then uid[|WwlPrefix|..] else uid
  }

  /** The position of the last `.` among the first `n` characters of `s`, if any. */
  function LastDot(s: string, n: nat): (r: Option<nat>)
    requires n <= |s|
    ensures r.Some? ==> r.value < n && s[r.value] == '.'
    ensures r.Some? ==> forall j :: r.value < j < n ==> s[j] != '.'
    ensures r.None? ==> forall j :: 0 <= j < n ==> s[j] != '.'
  {
    if n == 0 then None else if s[n - 1] == '.' then Some(n - 1) else LastDot(s, n - 1)
  }

  /**
   * `s.includes('.') ? s.split(".").pop() : s`: the text after the last `.`,
   * or all of `s` when it has none.
   */
  function AfterLastDot(s: string): (r: string)
    ensures |r| <= |s| && r == s[|s| - |r|..]
    ensures '.' !in r
    ensures |r| < |s| ==> s[|s| - |r| - 1] == '.'
  {
    match LastDot(s, |s|)
    case None => s
    case Some(k) => s[k + 1..]
  }

  /** The three facts AfterLastDot ensures determine its result. */
  lemma AfterLastDotUnique(s: string, r: string)
    requires |r| <= |s| && r == s[|s| - |r|..] && '.' !in r
    requires |r| < |s| ==> s[|s| - |r| - 1] == '.'
    ensures r == AfterLastDot(s)
  {
    forall j | |s| - |r| <= j < |s| ensures s[j] != '.' {
      assert s[j] == r[j - (|s| - |r|)];
    }
    var d := LastDot(s, |s|);
    if |r| < |s| {
      var k := |s| - |r| - 1;
      assert d.Some? && d.value == k;
    }
  }

  /** unitSlugFromUid: the normalised text after the last `.` of the uid without `learn.wwl.`. */
  function UnitSlugFromUid(uid: string): (r: string)
    ensures IsSlug(r)
  {
    NormalizeSlug(AfterLastDot(StripWwlPrefix(uid)))
  }

  /** Text ending in `.` in front of `y` does not change what follows the last dot. */
  lemma AfterLastDotBehindDot(x: string, y: string)
    requires x != [] && x[|x| - 1] == '.'
    ensures AfterLastDot(x + y) == AfterLastDot(y)
  {
    var r := AfterLastDot(y);
    var s := x + y;
    assert s[|s| - |r|..] == r;
    if |r| == |y| {
      assert s[|s| - |r| - 1] == x[|x| - 1];
    } else {
      assert s[|s| - |r| - 1] == y[|y| - |r| - 1];
    }
    AfterLastDotUnique(s, r);
  }

  /**
   * Stripping `learn.wwl.` never changes the slug, since that prefix ends in the dot
   * that the last-part step cuts at anyway.
   */
  lemma UnitSlugIgnoresWwlPrefix(uid: string)
    ensures UnitSlugFromUid(uid) == NormalizeSlug(AfterLastDot(uid))
    ensures UnitSlugFromUid(WwlPrefix + uid) == UnitSlugFromUid(uid)
  {
    if WwlPrefix <= uid {
      AfterLastDotBehindDot(WwlPrefix, StripWwlPrefix(uid));
    }
    AfterLastDotBehindDot(WwlPrefix, uid);
    assert (WwlPrefix + uid)[..|WwlPrefix|] == WwlPrefix;
    assert StripWwlPrefix(WwlPrefix + uid) == uid;
    if WwlPrefix <= uid {
      AfterLastDotBehindDot(WwlPrefix, StripWwlPrefix(uid));
    }
  }
}
