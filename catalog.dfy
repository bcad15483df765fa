/**
 * Post-processing of catalog responses: `contains`, `maybeLimit`, the concatenate,
 * filter and limit step of `searchCatalog`, the aggregation of `getDetail`, the
 * `filterBy*` filters and `sortByDuration` (src/http-server.ts:139-147, 211-286,
 * 1037-1077; src/server.ts:37-45, 194-243). The catalog response itself is an input.
 */
module Catalog {
  import opened Wrappers
  import opened Text

  /** A catalog record, reduced to the fields the post-processing reads. */
  datatype Item = Item(
    uid: string,
    title: Option<string>,
    summary: Option<string>,
    subtitle: Option<string>,
    level: Option<string>,
    roles: Option<seq<string>>,
    products: Option<seq<string>>,
    subjects: Option<seq<string>>,
    duration: Option<string>)

  /** A catalog response: the array under each key that holds an array. */
  type CatalogData = map<string, seq<Item>>

  // ---------------------------------------------------------------------------
  // contains and maybeLimit
  // ---------------------------------------------------------------------------

  /**
   * contains(hay, needle): false for a missing or empty haystack, otherwise whether the
   * lower-cased needle occurs in the lower-cased haystack.
   */
  function Contains(hay: Option<string>, needle: string): (r: bool)
    ensures hay.None? || hay == Some("") ==> !r
    ensures hay.Some? && hay.value != "" && needle == "" ==> r
    ensures r ==> |needle| <= |hay.value|
  {
    var h := Lower(hay.GetOr(""));
    IncludesInfix([], [], h);
    assert [] + [] + h == h;
    hay.Some? && hay.value != "" && Includes(Lower(hay.value), Lower(needle))
  }

  /** The test ignores case on both sides. */
  lemma ContainsIgnoresCase(hay: string, needle: string)
    ensures Contains(Some(hay), needle) == Contains(Some(Lower(hay)), Lower(needle))
  {
    LowerIdempotent(hay);
    LowerIdempotent(needle);
    LowerCases(hay);
  }

  /**
   * maybeLimit(arr, max): a missing, zero or negative `max` keeps everything, any other
   * keeps the first `max` elements (all of them when there are fewer).
   */
  function MaybeLimit<T>(arr: seq<T>, max: Option<int>): (r: seq<T>)
    ensures r <= arr
    ensures forall x :: x in r ==> x in arr
    ensures max.None? || max.value <= 0 ==> r == arr
    ensures max.Some? && max.value > 0 ==> |r| == Min(max.value, |arr|)
  {
    if max.None? || max.value <= 0 then arr else arr[..Min(max.value, |arr|)]
  }

  // ---------------------------------------------------------------------------
  // Order-preserving selection
  // ---------------------------------------------------------------------------

  /** `a` is `b` with some elements left out, the rest kept in order. */
  predicate IsSubsequence<T(==)>(a: seq<T>, b: seq<T>) {
    if a == [] then true
    else if b == [] then false
    else if a[0] == b[0] then IsSubsequence(a[1..], b[1..])
    else IsSubsequence(a, b[1..])
  }

  lemma {:induction false} SubsequenceRefl<T>(s: seq<T>)
    ensures IsSubsequence(s, s)
  {
    if s != [] {
      SubsequenceRefl(s[1..]);
    }
  }

  lemma {:induction false} SubsequenceOfTail<T>(a: seq<T>, b: seq<T>)
    requires a != [] && IsSubsequence(a, b)
    ensures IsSubsequence(a[1..], b)
    decreases |b|, 1
  {
    if a[0] == b[0] {
      SubsequenceWeaken(a[1..], b);
    } else {
      SubsequenceOfTail(a, b[1..]);
      SubsequenceWeaken(a[1..], b);
    }
  }

  lemma {:induction false} SubsequenceWeaken<T>(a: seq<T>, b: seq<T>)
    requires b != [] && IsSubsequence(a, b[1..])
    ensures IsSubsequence(a, b)
    decreases |b|, 0
  {
    if a != [] && a[0] == b[0] {
      SubsequenceOfTail(a, b[1..]);
    }
  }

  /** `items.filter(keep)`: every kept item as often as it occurs, in order. */
  function Select(items: seq<Item>, keep: Item -> bool): (r: seq<Item>)
    ensures IsSubsequence(r, items)
    ensures forall x: Item :: x in r <==> x in items && keep(x)
    ensures forall x: Item :: multiset(r)[x] == if keep(x) then multiset(items)[x] else 0
  {
    if items == [] then []
    else
      var rest := Select(items[1..], keep);
      assert items == [items[0]] + items[1..];
      if keep(items[0]) then [items[0]] + rest
      else
        SubsequenceWeaken(rest, items);
        rest
  }

  // ---------------------------------------------------------------------------
  // searchCatalog
  // ---------------------------------------------------------------------------

  /** The types the HTTP server searches when the `type` argument is absent. */
  const HttpSearchTypes: seq<string> :=
    ["modules", "learningPaths", "appliedSkills", "cert", "mergedCertifications", "exams", "courses", "units"]

  /** The types the stdio server searches when the `type` argument is absent. */
  const StdioSearchTypes: seq<string> :=
    ["modules", "learningPaths", "appliedSkills", "certifications", "mergedCertifications", "exams", "courses", "units"]

  /** `raw.type?.split(",") ?? defaults`. */
  function SearchTypes(typeArg: Option<string>, defaults: seq<string>): (r: seq<string>)
    ensures typeArg.None? ==> r == defaults
    ensures typeArg.Some? ==> |r| >= 1 && Join(r, ',') == typeArg.value
  {
    match typeArg
    case None => defaults
    case Some(t) => JoinSplit(t, ','); Split(t, ',')
  }

  /** `Array.isArray(data?.[t]) ? data[t] : []`. */
  function Lookup(data: CatalogData, t: string): (r: seq<Item>)
    ensures t in data ==> r == data[t]
    ensures t !in data ==> r == []
  {
    if t in data then data[t] else []
  }

  /** The free-text test on title, summary and subtitle. */
  predicate MatchesQuery(x: Item, q: string) {
    Contains(x.title, q) || Contains(x.summary, q) || Contains(x.subtitle, q)
  }

  /** Whether item `x` survives the free-text filter `q` (an absent or empty `q` keeps all). */
  predicate KeptBy(x: Item, q: Option<string>) {
    q.None? || q.value == "" || MatchesQuery(x, q.value)
  }

  /** `q ? arr.filter(...) : arr` for one type. */
  function QueryFilter(arr: seq<Item>, q: Option<string>): (r: seq<Item>)
    ensures IsSubsequence(r, arr)
    ensures forall x: Item :: multiset(r)[x] == if KeptBy(x, q) then multiset(arr)[x] else 0
  {
    if q.None? || q.value == "" then SubsequenceRefl(arr); arr else Select(arr, (x: Item) => MatchesQuery(x, q.value))
  }

  /** The filtered arrays of `types`, concatenated in the order of `types`. */
  function Gathered(data: CatalogData, types: seq<string>, q: Option<string>): (r: seq<Item>)
    ensures forall x :: x in r ==> KeptBy(x, q)
  {
    if types == [] then []
    else Gathered(data, types[..|types| - 1], q) + QueryFilter(Lookup(data, types[|types| - 1]), q)
  }

  /** An item is gathered exactly when some searched type holds it and the query keeps it. */
  lemma {:induction false} GatheredMembership(data: CatalogData, types: seq<string>, q: Option<string>, x: Item)
    ensures x in Gathered(data, types, q) <==>
              (exists i :: 0 <= i < |types| && x in Lookup(data, types[i])) && KeptBy(x, q)
  {
    if types != [] {
      var init := types[..|types| - 1];
      var t := types[|types| - 1];
      GatheredMembership(data, init, q, x);
      assert x in QueryFilter(Lookup(data, t), q) <==> x in Lookup(data, t) && KeptBy(x, q);
      if x in Lookup(data, t) {
        assert types[|types| - 1] == t;
      }
      if exists i :: 0 <= i < |types| && x in Lookup(data, types[i]) {
        var i :| 0 <= i < |types| && x in Lookup(data, types[i]);
        if i < |types| - 1 {
          assert init[i] == types[i];
        }
      }
    }
  }

  /** The searchCatalog post-processing, as its loop computes it. */
  method SearchCatalog(data: CatalogData, typeArg: Option<string>, defaults: seq<string>, q: Option<string>,
                       maxResults: Option<int>)
    returns (out: seq<Item>)
    ensures out == MaybeLimit(Gathered(data, SearchTypes(typeArg, defaults), q), maxResults)
  {
    var types := SearchTypes(typeArg, defaults);
    var results: seq<Item> := [];
    var i := 0;
    while i < |types|
      invariant 0 <= i <= |types|
      invariant results == Gathered(data, types[..i], q)
    {
      var t := types[i];
      var arr := if t in data then data[t] else [];
      var kept := if q.Some? && q.value != "" then Select(arr, (x: Item) => MatchesQuery(x, q.value)) else arr;
      results := results + kept;
      assert types[..i + 1][..i] == types[..i];
      i := i + 1;
    }
    assert types[..i] == types;
    out := MaybeLimit(results, maxResults);
  }

  // ---------------------------------------------------------------------------
  // getDetail
  // ---------------------------------------------------------------------------

  /** The response's non-empty arrays under their keys. */
  function NonEmptyArrays(data: CatalogData): map<string, seq<Item>> {
    map k | k in data && data[k] != [] :: data[k]
  }

  /** The getDetail aggregation loop: it keeps exactly the keys whose arrays are non-empty. */
  method GetDetailAggregates(data: CatalogData) returns (aggregates: map<string, seq<Item>>)
    ensures aggregates == NonEmptyArrays(data)
    ensures forall k :: k in aggregates <==> k in data && data[k] != []
  {
    aggregates := map[];
    var keys := data.Keys;
    while keys != {}
      invariant keys <= data.Keys
      invariant forall k :: k in aggregates <==> k in data && k !in keys && data[k] != []
      invariant forall k :: k in aggregates ==> aggregates[k] == data[k]
      decreases keys
    {
      var key :| key in keys;
      if data[key] != [] {
        aggregates := aggregates[key := data[key]];
      }
      keys := keys - {key};
    }
  }

  // ---------------------------------------------------------------------------
  // filterByProduct, filterByRole, filterBySubject, filterByLevel
  // ---------------------------------------------------------------------------

  /** `a` contains `b` or `b` contains `a`, ignoring case. */
  predicate Overlap(a: string, b: string) {
    Includes(Lower(a), Lower(b)) || Includes(Lower(b), Lower(a))
  }

  /** The item has the tag list, and some tag overlaps some criterion. */
  predicate TagsMatch(tags: Option<seq<string>>, criteria: seq<string>) {
    tags.Some? && exists c, t :: c in criteria && t in tags.value && Overlap(t, c)
  }

  /**
   * The shared shape of filterByProduct, filterByRole and filterBySubject: no criteria keep
   * everything; otherwise the items whose `field` list has a tag overlapping a criterion.
   */
  function FilterByTags(items: seq<Item>, wanted: seq<string>, field: Item -> Option<seq<string>>): (r: seq<Item>)
    ensures IsSubsequence(r, items)
    ensures wanted == [] ==> r == items
    ensures forall x: Item :: x in r <==> x in items && (wanted == [] || TagsMatch(field(x), wanted))
    ensures forall x: Item :: multiset(r)[x] == if wanted == [] || TagsMatch(field(x), wanted) then multiset(items)[x] else 0
  {
    if wanted == [] then SubsequenceRefl(items); items else Select(items, (x: Item) => TagsMatch(field(x), wanted))
  }

  /** filterByProduct: the items with a product overlapping one of `products`. */
  function FilterByProduct(items: seq<Item>, products: seq<string>): (r: seq<Item>)
    ensures IsSubsequence(r, items)
    ensures products == [] ==> r == items
    ensures forall x: Item :: x in r <==> x in items && (products == [] || TagsMatch(x.products, products))
    ensures forall x: Item :: multiset(r)[x] == if products == [] || TagsMatch(x.products, products) then multiset(items)[x] else 0
  {
    FilterByTags(items, products, (x: Item) => x.products)
  }

  /** filterByRole: the items with a role overlapping one of `roles`. */
  function FilterByRole(items: seq<Item>, roles: seq<string>): (r: seq<Item>)
    ensures IsSubsequence(r, items)
    ensures roles == [] ==> r == items
    ensures forall x: Item :: x in r <==> x in items && (roles == [] || TagsMatch(x.roles, roles))
    ensures forall x: Item :: multiset(r)[x] == if roles == [] || TagsMatch(x.roles, roles) then multiset(items)[x] else 0
  {
    FilterByTags(items, roles, (x: Item) => x.roles)
  }

  /** filterBySubject: the items with a subject overlapping one of `subjects`. */
  function FilterBySubject(items: seq<Item>, subjects: seq<string>): (r: seq<Item>)
    ensures IsSubsequence(r, items)
    ensures subjects == [] ==> r == items
    ensures forall x: Item :: x in r <==> x in items && (subjects == [] || TagsMatch(x.subjects, subjects))
    ensures forall x: Item :: multiset(r)[x] == if subjects == [] || TagsMatch(x.subjects, subjects) then multiset(items)[x] else 0
  {
    FilterByTags(items, subjects, (x: Item) => x.subjects)
  }

  const BeginnerVariants: seq<string> := ["beginner", "basic", "introduction", "fundamentals"]
  const IntermediateVariants: seq<string> := ["intermediate", "standard", "regular"]
  const AdvancedVariants: seq<string> := ["advanced", "expert", "complex"]

  /** `levelMap.get(level.toLowerCase()) || [level.toLowerCase()]`. */
  function LevelVariants(level: string): seq<string> {
    var l := Lower(level);
    if l == "beginner" then BeginnerVariants
    else if l == "intermediate" then IntermediateVariants
    else if l == "advanced" then AdvancedVariants
    else [l]
  }

  /** The item has a non-empty level containing a variant of one of `levels`. */
  predicate LevelMatches(level: Option<string>, levels: seq<string>) {
    && level.Some? && level.value != ""
    && exists l, v :: l in levels && v in LevelVariants(l) && Includes(Lower(level.value), v)
  }

  /** filterByLevel: the items whose level contains a variant of a requested level. */
  function FilterByLevel(items: seq<Item>, levels: seq<string>): (r: seq<Item>)
    ensures IsSubsequence(r, items)
    ensures levels == [] ==> r == items
    ensures forall x: Item :: x in r <==> x in items && (levels == [] || LevelMatches(x.level, levels))
    ensures forall x: Item :: multiset(r)[x] == if levels == [] || LevelMatches(x.level, levels) then multiset(items)[x] else 0
  {
    if levels == [] then SubsequenceRefl(items); items else Select(items, (x: Item) => LevelMatches(x.level, levels))
  }

  /**
   * Asking for `beginner`, `intermediate` or `advanced` (in any case) keeps the items
   * whose level names one of that level's synonyms.
   */
  lemma LevelSynonymsMatch(x: Item, level: string, synonym: string)
    requires x.level.Some? && x.level.value != ""
    requires Includes(Lower(x.level.value), synonym)
    requires || (Lower(level) == "beginner" && synonym in BeginnerVariants)
             || (Lower(level) == "intermediate" && synonym in IntermediateVariants)
             || (Lower(level) == "advanced" && synonym in AdvancedVariants)
    ensures x in FilterByLevel([x], [level])
  {
    assert level in [level] && synonym in LevelVariants(level);
  }

  // ---------------------------------------------------------------------------
  // sortByDuration
  // ---------------------------------------------------------------------------

  /** The position of the first digit of `s`, or `|s|` when there is none. */
  function FirstDigitIndex(s: string): (k: nat)
    ensures k <= |s|
    ensures forall i :: 0 <= i < k ==> !IsDigit(s[i])
    ensures k < |s| ==> IsDigit(s[k])
  {
    if s == [] || IsDigit(s[0]) then 0 else FirstDigitIndex(s[1..]) + 1
  }

  /** `s.match(/(\d+)/)`: the first run of digits, as long as it goes; empty when `s` has none. */
  function FirstDigitRun(s: string): (r: string)
    ensures AllDigits(r)
    ensures r == [] <==> forall i :: 0 <= i < |s| ==> !IsDigit(s[i])
    ensures r == LeadingDigits(s[FirstDigitIndex(s)..])
  {
    if s == [] then []
    else if IsDigit(s[0]) then LeadingDigits(s)
    else
      assert s[FirstDigitIndex(s)..] == s[1..][FirstDigitIndex(s[1..])..];
      FirstDigitRun(s[1..])
  }

  /** getDurationMinutes(a.duration || ''): the first number in the text, or 0. */
  function DurationMinutes(duration: Option<string>): (r: nat)
    ensures duration.None? ==> r == 0
    ensures duration.Some? && (forall i :: 0 <= i < |duration.value| ==> !IsDigit(duration.value[i])) ==> r == 0
  {
    match duration
    case None => 0
    case Some(d) => ParseDigits(FirstDigitRun(d))
  }

  /** A duration that starts with a printed number reads as that number, whatever unit text follows. */
  lemma DurationOfPrinted(n: nat, rest: string)
    requires rest == [] || !IsDigit(rest[0])
    ensures DurationMinutes(Some(NatToString(n) + rest)) == n
  {
    var d := NatToString(n) + rest;
    assert IsDigit(d[0]);
    LeadingDigitsOf(NatToString(n), rest);
    ParseNatToString(n);
  }

  function Key(x: Item): nat {
    DurationMinutes(x.duration)
  }

  /** `s` is in non-decreasing order of `key`. */
  predicate SortedBy<T>(s: seq<T>, key: T -> nat) {
    forall i, j :: 0 <= i < j < |s| ==> key(s[i]) <= key(s[j])
  }

  /** Insert `x` into `s` after every leading element whose key is not larger. */
  function InsertBy<T>(x: T, s: seq<T>, key: T -> nat): (r: seq<T>)
    ensures multiset(r) == multiset(s) + multiset{x}
    ensures |r| == |s| + 1
    ensures r[0] == x || (s != [] && r[0] == s[0])
  {
    if s == [] then [x]
    else if key(x) < key(s[0]) then [x] + s
    else
      var rest := InsertBy(x, s[1..], key);
      assert s == [s[0]] + s[1..];
      [s[0]] + rest
  }

  /** Inserting into a sorted list keeps it sorted. */
  lemma {:induction false} InsertSorted<T>(x: T, s: seq<T>, key: T -> nat)
    requires SortedBy(s, key)
    ensures SortedBy(InsertBy(x, s, key), key)
  {
    if s != [] && key(s[0]) <= key(x) {
      var rest := InsertBy(x, s[1..], key);
      InsertSorted(x, s[1..], key);
      assert key(s[0]) <= key(rest[0]);
      assert InsertBy(x, s, key) == [s[0]] + rest;
    }
  }

  /** Insertion sort by `key`: each element in turn is inserted into the sorted prefix. */
  function SortBy<T>(items: seq<T>, key: T -> nat): (r: seq<T>)
    ensures multiset(r) == multiset(items)
    ensures SortedBy(r, key)
  {
    if items == [] then []
    else
      var init := items[..|items| - 1];
      assert items == init + [items[|items| - 1]];
      var sorted := SortBy(init, key);
      InsertSorted(items[|items| - 1], sorted, key);
      InsertBy(items[|items| - 1], sorted, key)
  }

  /** The elements of `s` whose key is `k`, in order. */
  function WithKey<T>(s: seq<T>, key: T -> nat, k: nat): seq<T> {
    if s == [] then [] else (if key(s[0]) == k then [s[0]] else []) + WithKey(s[1..], key, k)
  }

  lemma {:induction false} WithKeyAppend<T>(s: seq<T>, x: T, key: T -> nat, k: nat)
    ensures WithKey(s + [x], key, k) == WithKey(s, key, k) + (if key(x) == k then [x] else [])
  {
    if s != [] {
      assert (s + [x])[1..] == s[1..] + [x];
      WithKeyAppend(s[1..], x, key, k);
    }
  }

  lemma WithKeyLast<T>(s: seq<T>, key: T -> nat, k: nat)
    requires s != []
    ensures WithKey(s, key, k) == WithKey(s[..|s| - 1], key, k) + (if key(s[|s| - 1]) == k then [s[|s| - 1]] else [])
  {
    assert s == s[..|s| - 1] + [s[|s| - 1]];
    WithKeyAppend(s[..|s| - 1], s[|s| - 1], key, k);
  }

  lemma {:induction false} WithKeyAllLarger<T>(s: seq<T>, key: T -> nat, k: nat)
    requires forall i :: 0 <= i < |s| ==> key(s[i]) > k
    ensures WithKey(s, key, k) == []
  {
    if s != [] {
      WithKeyAllLarger(s[1..], key, k);
    }
  }

  lemma WithKeyCons<T>(y: T, t: seq<T>, key: T -> nat, k: nat)
    ensures WithKey([y] + t, key, k) == (if key(y) == k then [y] else []) + WithKey(t, key, k)
  {
    assert ([y] + t)[1..] == t;
  }

  /** Inserting `x` in front of a larger first key adds `x` after every element whose key is its own: there are none. */
  lemma InsertFront<T>(x: T, s: seq<T>, key: T -> nat, k: nat)
    requires SortedBy(s, key) && s != [] && key(x) < key(s[0])
    ensures WithKey(InsertBy(x, s, key), key, k) == WithKey(s, key, k) + (if key(x) == k then [x] else [])
  {
    assert InsertBy(x, s, key) == [x] + s;
    WithKeyCons(x, s, key, k);
    if key(x) == k {
      assert forall i :: 0 <= i < |s| ==> key(s[i]) > k by {
        forall i | 0 <= i < |s| ensures key(s[i]) > k {
          assert i == 0 || key(s[0]) <= key(s[i]);
        }
      }
      WithKeyAllLarger(s, key, k);
    }
  }

  /** The tail of a sorted list is sorted. */
  lemma SortedTail<T>(s: seq<T>, key: T -> nat)
    requires SortedBy(s, key) && s != []
    ensures SortedBy(s[1..], key)
  {
    forall i, j | 0 <= i < j < |s| - 1 ensures key(s[1..][i]) <= key(s[1..][j]) {
      assert s[1..][i] == s[i + 1] && s[1..][j] == s[j + 1];
    }
  }

  /** Inserting `x` adds it behind every element with the same key. */
  lemma {:induction false} InsertStable<T>(x: T, s: seq<T>, key: T -> nat, k: nat)
    requires SortedBy(s, key)
    ensures WithKey(InsertBy(x, s, key), key, k) == WithKey(s, key, k) + (if key(x) == k then [x] else [])
  {
    if s == [] {
    } else if key(x) < key(s[0]) {
      InsertFront(x, s, key, k);
    } else {
      InsertBehind(x, s, key);
      SortedTail(s, key);
      InsertStable(x, s[1..], key, k);
      WithKeyCons(s[0], InsertBy(x, s[1..], key), key, k);
      WithKeyUnfold(s, key, k);
      ConcatAssoc(if key(s[0]) == k then [s[0]] else [], WithKey(s[1..], key, k), if key(x) == k then [x] else []);
    }
  }

  lemma ConcatAssoc<T>(a: seq<T>, b: seq<T>, c: seq<T>)
    ensures a + (b + c) == (a + b) + c
  {
  }

  lemma InsertBehind<T>(x: T, s: seq<T>, key: T -> nat)
    requires s != [] && key(s[0]) <= key(x)
    ensures InsertBy(x, s, key) == [s[0]] + InsertBy(x, s[1..], key)
  {
  }

  lemma WithKeyUnfold<T>(s: seq<T>, key: T -> nat, k: nat)
    requires s != []
    ensures WithKey(s, key, k) == (if key(s[0]) == k then [s[0]] else []) + WithKey(s[1..], key, k)
  {
  }

  /** The last item is inserted into the sorted rest. */
  lemma SortByLast<T>(items: seq<T>, key: T -> nat)
    requires items != []
    ensures SortBy(items, key) == InsertBy(items[|items| - 1], SortBy(items[..|items| - 1], key), key)
  {
  }

  /** The insertion sort is stable: for every key, the items with that key keep their order. */
  lemma {:induction false} SortByStable<T>(items: seq<T>, key: T -> nat, k: nat)
    ensures WithKey(SortBy(items, key), key, k) == WithKey(items, key, k)
  {
    if items != [] {
      var init := items[..|items| - 1];
      var x := items[|items| - 1];
      var sorted := SortBy(init, key);
      SortByLast(items, key);
      InsertStable(x, sorted, key, k);
      SortByStable(init, key, k);
      WithKeyLast(items, key, k);
    }
  }

  /**
   * sortByDuration: a copy of `items` in non-decreasing order of duration minutes, a
   * permutation of the input; `Array.prototype.sort` is stable.
   */
  function SortByDuration(items: seq<Item>): (r: seq<Item>)
    ensures multiset(r) == multiset(items)
    ensures SortedBy(r, Key)
  {
    SortBy(items, Key)
  }

  /** Items with equal duration minutes keep their input order. */
  lemma SortByDurationStable(items: seq<Item>, minutes: nat)
    ensures WithKey(SortByDuration(items), Key, minutes) == WithKey(items, Key, minutes)
  {
    SortByStable(items, Key, minutes);
  }
}
