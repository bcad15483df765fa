# mcp-learn catalog server — a Dafny model

This project models the core of the mcp-learn server. The server exposes the Microsoft
Learn catalog to MCP clients, both over stdio and over HTTP. The HTTP side is the
Streamable HTTP transport. Both sides reconstruct unit page URLs from unit uids, then
scrape those pages.

The model covers two parts.

- **Session router.** This is the HTTP server's POST `/mcp` handler.
  - It runs the envelope checks in order: protocol version, Accept header, `jsonrpc` equal to `"2.0"`.
  - It then resolves the session. `initialize` always creates a new session. Any other message needs a known `Mcp-Session-Id`.
  - It classifies the message as a request, a notification or a bare response.
  - Requests go through the JSON-RPC method dispatch (`handleMcpRequest`) and, under `tools/call`, the tool-name dispatch (`executeToolCall`).
  - The session registry is a class holding a `map` from id to session, with create, get, delete and the one-hour expiry. DELETE `/mcp` is modelled too.
- **Unit-URL derivation and scrape assembly.**
  - `deriveModuleBase`, `unitSlugFromUid` and `normalizeSlug`.
  - The numbered `{index, uid, slug, url}` pairs and the `max_units` cut.
  - The per-unit outcome: the title fallback chain of `detectUnitTitle` and the excerpt truncation of `extractBodyText`.
  - Both servers' output: numbered `lines` in the stdio server, rows in the HTTP server.
  - The catalog helpers: `contains`, `maybeLimit`, the concatenate-filter-limit search, the `getDetail` aggregation, `filterByProduct`, `filterByRole`, `filterBySubject`, `filterByLevel` and the stable `sortByDuration`.

Files:
- `wrappers.dfy`: Option and Result.
- `text.dfy`: the JavaScript string operations the code relies on. These are white-space trimming with the full `\s` set, `includes`, `split` and `join`, decimal printing and `parseInt`.
- `slugs.dfy`: the URL and slug helpers.
- `catalog.dfy`: the catalog helpers.
- `scrape.dfy`: the scrape pipeline.
- `scenarios.dfy`: the worked examples from the source's comments.
- `tools.dfy`: the tool and method dispatch.
- `http.dfy`: the registry and the POST and DELETE handlers.

The network, the clock and the UUID generator are inputs:
- The catalog API's answer to the call's request is a `Result` value.
- Each unit page is a function from URL to either a rejected fetch or a status plus an abstract page. The page gives the text of each title selector, the `og:title` content, and the `main`, `article` and `body` HTML.
- The HTML-to-text converter is a function.
- The fresh session id and the current time are parameters.

In three places the code behaves otherwise than its comments and tool descriptions suggest; the model follows the code:
- A page fetch that rejects, as on a network error, is not caught. `Promise.all` then rejects, and the whole tool call fails with -32603. Only a non-2xx status becomes a per-unit `ok: false` record (`Scrape.ScrapeAll`).
- An unknown tool name is thrown by `executeToolCall`. It becomes -32603 "Internal error", not "method not found" (`Tools.UnknownToolIsInternalError`).
- Only `tools/call` requires an initialized session. `tools/list` is answered on any session (`Tools.UngatedMethods`).

## Model

| member | source | states |
|---|---|---|
| Text.LowerCases | src/http-server.ts:141 | after `toLowerCase()` no capital is left; every other character is unchanged and each capital becomes its own small letter, so the length is kept |
| Text.LowerIdempotent | src/http-server.ts:141 | lowercasing twice is lowercasing once |
| Text.Includes | src/http-server.ts:141 | a text includes only needles no longer than itself |
| Text.IncludesInfix | src/http-server.ts:141 | a text includes every piece it is built from, the empty needle included |
| Text.TrimStart | src/server.ts:101 | the result is a suffix; everything dropped is white space; it does not start with white space |
| Text.TrimEnd | src/server.ts:101 | the result is a prefix; everything dropped is white space; it does not end with white space |
| Text.Trim | src/server.ts:101 | the trimmed text neither starts nor ends with white space and is no longer than the text |
| Text.TrimEmptyIffBlank | src/server.ts:101-102 | a trimmed text is empty (falsy) exactly when the text is all white space |
| Text.TrimOfTrimmed | src/server.ts:104 | trimming a text that has no white space at either end changes nothing |
| Text.ReplaceCharRemoves | src/server.ts:311 | replacing `a` by another character leaves no `a`; a text without `a` is unchanged; replacing again changes nothing |
| Text.NatToString | src/server.ts:294 | a number prints as a non-empty run of decimal digits |
| Text.ParseNatToString | src/http-server.ts:282 | `parseInt` of a printed number gives the number back |
| Text.NatToStringInjective | src/server.ts:294 | different numbers print differently |
| Text.Split | src/http-server.ts:1040 | `split` gives at least one piece and no piece holds the separator |
| Text.JoinSplit | src/http-server.ts:1040 | joining the pieces of a split with the separator gives the text back |
| Text.LeadingDigits | src/http-server.ts:281 | the first digit run of a text starting with digits: a prefix made of digits, followed by a non-digit or the end |
| Text.LeadingDigitsOf | src/http-server.ts:281-282 | a digit run followed by a non-digit or the end is exactly what the leading-digits match takes |
| Slugs.StripQuery | src/server.ts:57 | the result is the prefix before the first `?`, and holds no `?` |
| Slugs.StripQueryUnique | src/server.ts:57 | any prefix with no `?` that ends at a `?` or at the end is the result |
| Slugs.StripQueryIdempotent | src/server.ts:57 | stripping twice is stripping once |
| Slugs.StripQueryOfQuery | src/server.ts:51-57 | `url?query` strips to `url` |
| Slugs.LastMarker | src/server.ts:60 | the greedy regex match starts at the last `/modules/<non-empty segment>` before the first line terminator |
| Slugs.SegmentEnd | src/server.ts:60 | the `[^/]+` segment ends at the next `/` or at the end of the text |
| Slugs.BeforeLastSlash | src/server.ts:65-67 | everything before the last `/`, or the empty text when there is no `/` |
| Slugs.BaseOf | src/server.ts:60-67 | with a `/modules/<segment>` match, the text up to the end of the last such segment; without one, the text before the last `/` |
| Slugs.DeriveModuleBase | src/server.ts:56-68 | the module base is a prefix of the first unit's URL |
| Slugs.DeriveModuleBaseIgnoresQuery | src/server.ts:51-57 | a query string does not change the module base |
| Slugs.DeriveModuleBaseDropsTrailingSlash | src/server.ts:64-67 | with no `/modules/` match, a URL ending in `/` loses just that `/` |
| Slugs.SpaceRunsToHyphen | src/server.ts:90 | the `\s+` replace leaves no white space and does not lengthen the text |
| Slugs.HyphenateOthers | src/server.ts:91 | the length is kept; every character outside `[a-z0-9-]` becomes `-` and every one inside stays |
| Slugs.CollapseHyphens | src/server.ts:92 | no `--` remains, the text does not grow, its first character stays, and a text of `[a-z0-9-]` stays within `[a-z0-9-]` |
| Slugs.CollapseHyphensKeeps | src/server.ts:92 | only hyphens are dropped: the other characters stay in order, and the last character stays |
| Slugs.TrimHyphens | src/server.ts:93 | the result is at most two characters shorter |
| Slugs.TrimHyphensSpec | src/server.ts:93 | on `m`, `-m`, `m-` and `-m-` (with `m` not starting or ending in the hyphen next to it) the result is `m`: one hyphen goes from each end that has one |
| Slugs.NormalizeSlug | src/server.ts:86-95 | the output is made of `[a-z0-9-]`, has no `--`, and neither starts nor ends with `-` |
| Slugs.SpaceRunsToHyphenNoSpace | src/server.ts:90 | a text with no white space is not changed by the `\s+` replace |
| Slugs.CollapseHyphensSingle | src/server.ts:92 | a text with no `--` is not changed by the `-+` replace |
| Slugs.NormalizeSlugOfSlug | src/server.ts:86-95 | a text that is already a slug normalises to itself |
| Slugs.NormalizeSlugIdempotent | src/server.ts:86-95 | normalising twice is normalising once |
| Slugs.Words | src/server.ts:86-95 | the words of a text (its maximal `[a-z0-9]` runs) are non-empty runs of letters and digits, and a text starting with one has at least one word |
| Slugs.WordsSpaceRuns | src/server.ts:90 | the `\s+` replace keeps the words and whether the text starts with one |
| Slugs.WordsHyphenateOthers | src/server.ts:91 | the `[^a-z0-9-]` replace keeps the words and whether the text starts with one |
| Slugs.WordsCollapseHyphens | src/server.ts:92 | the `-+` replace keeps the words and whether the text starts with one |
| Slugs.WordsTrimHyphens | src/server.ts:93 | the `^-|-$` replace keeps the words |
| Slugs.SlugIsHyphenatedWords | src/server.ts:86-95 | a slug is its words joined by single hyphens |
| Slugs.NormalizeSlugWords | src/server.ts:86-95 | the slug keeps the letters and digits of the lowercased text in order, with exactly one `-` wherever anything else separated two runs of them, and nothing else |
| Slugs.StripWwlPrefix | src/server.ts:76 | a leading `learn.wwl.` is removed, and any other uid is kept |
| Slugs.LastDot | src/server.ts:80 | the position of the last `.`, or none when there is no `.` |
| Slugs.AfterLastDot | src/server.ts:80 | the longest suffix with no `.`, which is the whole text when there is no `.` |
| Slugs.AfterLastDotUnique | src/server.ts:80 | any dot-free suffix preceded by `.` or by nothing is the result |
| Slugs.AfterLastDotBehindDot | src/server.ts:76-80 | text ending in `.` in front of a uid does not change the part after the last dot |
| Slugs.UnitSlugFromUid | src/server.ts:74-83 | the unit slug is a slug |
| Slugs.UnitSlugIgnoresWwlPrefix | src/server.ts:74-83 | the slug is the normalised text after the last dot, with or without a `learn.wwl.` prefix |
| Catalog.Contains | src/http-server.ts:139-142 | a missing or empty haystack never matches; any other matches the empty needle; a match needs a needle no longer than the haystack |
| Catalog.ContainsIgnoresCase | src/http-server.ts:139-142 | the test ignores case in both the haystack and the needle |
| Catalog.MaybeLimit | src/http-server.ts:144-147 | the result is a prefix holding only items of the list; a missing, zero or negative max keeps everything; a positive max keeps min(max, length) items |
| Catalog.SubsequenceRefl | src/http-server.ts:212 | a list is an order-preserving subsequence of itself, which is how an empty criteria list returns `items` |
| Catalog.Select | src/http-server.ts:213 | `filter` gives an order-preserving subsequence in which each item occurs as often as in the input when the predicate keeps it and not at all otherwise |
| Catalog.SearchTypes | src/http-server.ts:1040-1043 | without `type`, the default type list; with one, the non-empty list of its comma-separated parts |
| Catalog.Lookup | src/http-server.ts:1046 | the array stored under a type, or nothing for a type the catalog lacks |
| Catalog.QueryFilter | src/http-server.ts:1047-1049 | an order-preserving subsequence in which each item occurs as often as in the array when the query keeps it (always, for an absent or empty query) and not at all otherwise |
| Catalog.Gathered | src/http-server.ts:1044-1050 | every gathered item passes the free-text query |
| Catalog.GatheredMembership | src/http-server.ts:1045-1051 | an item is gathered exactly when a searched type holds it and the free-text query keeps it |
| Catalog.SearchCatalog | src/http-server.ts:1037-1053 | the loop's result is the per-type filtered lists concatenated in type order, then limited |
| Catalog.GetDetailAggregates | src/http-server.ts:1071-1077 | the aggregates hold exactly the keys whose arrays are non-empty, with those arrays |
| Catalog.FilterByTags | src/http-server.ts:211-235 | the shared tag filter: an order-preserving subsequence; the identity for no criteria; each item whose chosen tag list overlaps a criterion occurs as often as in the input, and no other item occurs |
| Catalog.FilterByProduct | src/http-server.ts:211-222 | an order-preserving subsequence; the identity for no criteria; each item with a product overlapping a criterion occurs as often as in the input, and no other item occurs |
| Catalog.FilterByRole | src/http-server.ts:224-235 | an order-preserving subsequence; the identity for no criteria; each item with a role overlapping a criterion occurs as often as in the input, and no other item occurs |
| Catalog.FilterBySubject | src/http-server.ts:255-266 | an order-preserving subsequence; the identity for no criteria; each item with a subject overlapping a criterion occurs as often as in the input, and no other item occurs |
| Catalog.FilterByLevel | src/http-server.ts:237-253 | an order-preserving subsequence; the identity for no levels; each item whose level contains a variant of a requested level occurs as often as in the input, and no other item occurs |
| Catalog.LevelSynonymsMatch | src/http-server.ts:239-251 | an item whose level contains a synonym of beginner, intermediate or advanced passes a filter for that level |
| Catalog.FirstDigitIndex | src/http-server.ts:282 | the position of the first digit of the text, or its length when there is none |
| Catalog.FirstDigitRun | src/http-server.ts:281-282 | the match is the leading digit run starting at the first digit of the text: all digits, as long as it goes, and empty exactly when the text has no digit |
| Catalog.DurationMinutes | src/http-server.ts:280-284 | a missing duration, or one with no digit, counts 0 minutes |
| Catalog.DurationOfPrinted | src/http-server.ts:280-284 | a duration starting with a printed number and then a non-digit reads as that number |
| Catalog.InsertBy | src/http-server.ts:278-285 | insertion adds exactly the item to the multiset of the list |
| Catalog.InsertSorted | src/http-server.ts:278-285 | inserting into a list sorted by the key keeps it sorted |
| Catalog.SortBy | src/http-server.ts:278-285 | sorting by a key gives a permutation of the items in non-decreasing key order |
| Catalog.InsertStable | src/http-server.ts:278-285 | an inserted item lands behind every item with the same key |
| Catalog.SortByStable | src/http-server.ts:278-285 | the sort is stable: items with equal keys keep their input order |
| Catalog.SortByDuration | src/http-server.ts:277-286 | the result is a permutation of the items, non-decreasing by duration minutes |
| Catalog.SortByDurationStable | src/http-server.ts:277-286 | items with equal duration minutes keep their input order, as `Array.prototype.sort` is stable |
| Scrape.OgTitle | src/server.ts:104-105 | the fallback is the trimmed `og:title`, present exactly when the attribute is there and not blank |
| Scrape.TitleFrom | src/server.ts:99-106 | a detected title is non-empty and trimmed; no title means no usable `og:title` |
| Scrape.TitleFromFirstHeading | src/server.ts:99-103 | the title is the text of the first selector whose trimmed text is non-empty |
| Scrape.TitleFromOg | src/server.ts:104-106 | when every selector is empty, the title is the trimmed `og:title`, or none |
| Scrape.DetectedTitle | src/server.ts:98-107 | the detected title is non-empty and trimmed; there is none only when every selector text is empty and there is no usable `og:title` |
| Scrape.DetectUnitTitle | src/server.ts:98-107 | the selector loop with its early return computes the detected title |
| Scrape.SliceTo | src/server.ts:123 | `slice(0, end)` is a prefix of length `end`, counting from the back for a negative `end` |
| Scrape.Truncate | src/server.ts:123 | text that fits is unchanged; otherwise exactly the first `maxChars` characters and `…`, at most `maxChars + 1` long |
| Scrape.ExcerptRoot | src/server.ts:111 | the HTML of the first truthy of main, article and body, in that order, and the empty text exactly when none is truthy |
| Scrape.ExtractBodyText | src/server.ts:110-124 | the excerpt is at most `maxChars + 1` long and is the whole trimmed text when that fits |
| Scrape.UnitUrl | src/server.ts:294 | every unit URL starts with the base and `/` and ends with `/` |
| Scrape.Pairs | src/server.ts:290-296 | one pair per unit, in order, the i-th built from the i-th uid with index i + 1 |
| Scrape.PairsWellFormed | src/server.ts:290-296 | pair i has index i + 1, uid `units[i]`, a slug derived from that uid, and URL `base/<i+1>-<slug>/` |
| Scrape.DigitsBeforeHyphen | src/server.ts:294 | the number in front of the `-` of a unit URL is determined by the URL |
| Scrape.UnitUrlInjective | src/server.ts:294 | unit URLs with different indexes differ, whatever the slugs |
| Scrape.PairUrlsDistinct | src/server.ts:290-296 | no two pairs are fetched at the same URL |
| Scrape.Target | src/server.ts:298 | a missing or zero `max_units` keeps every pair, a negative one none, a positive one the first min(max_units, n) |
| Scrape.SlugTitle | src/server.ts:311 | the slug title has the slug's length and no `-` |
| Scrape.Outcome | src/server.ts:303-316 | the outcome keeps the pair's identity; ok iff status is 2xx; not ok gives the status and no title; ok gives the detected title, else the slug title; an excerpt exactly when ok and requested, and it is the page's extracted body text cut at the requested length |
| Scrape.FirstRejected | src/server.ts:300-319 | the first unit whose fetch rejects, if any |
| Scrape.ScrapeAll | src/server.ts:300-319 | the scrape fails exactly when some fetch rejects, naming the URL of a target whose fetch rejects; otherwise outcome i is the outcome of pair i |
| Scrape.ScrapeModuleUnits | src/http-server.ts:1094-1131 | missing input exactly when `firstUnitUrl` is falsy or `units` missing or empty; with input, failure exactly when the fetch of some processed unit rejects, naming such a unit's URL; otherwise the derived base, the cut pairs, and outcome i is the outcome of the response to pair i, with `max_chars_excerpt` or else the server's default |
| Scrape.Line | src/server.ts:321-323 | every line starts with the unit's index and `. ` |
| Scrape.LineNumber | src/server.ts:321-323 | the number a line starts with is its unit's index |
| Scrape.StdioScrape | src/server.ts:321-334 | the stdio tool fails exactly when the shared scrape fails, with the same error; otherwise it keeps the scrape's base and outcomes, `count` is their number, and line i is the summary of outcome i |
| Scrape.StdioLinesNumbered | src/server.ts:321-334 | line i of the stdio report starts with the number i + 1 |
| Scrape.StdioExcerptDefault | src/server.ts:274 | without `max_chars_excerpt`, every stdio excerpt is at most 800 characters and `…` |
| Scrape.HeadingText | src/server.ts:101 | the text of a title selector is trimmed |
| Scrape.Report | src/server.ts:321-334 | the report keeps the base and the items, `count` is their number, and line i summarises item i |
| Scrape.Rows | src/http-server.ts:1133-1138 | one row per outcome, linking its URL, described by its summary line, markdown, with a non-empty snippet |
| Scrape.ToRow | src/http-server.ts:1133-1138 | a row links the unit's URL, is markdown, and carries the excerpt when there is one, else a non-empty placeholder |
| Scrape.HttpScrape | src/http-server.ts:1094-1145 | the HTTP tool fails exactly when the shared scrape fails, with the same error, and otherwise gives the rows of the shared scrape's outcomes |
| Scrape.HttpExcerptDefault | src/http-server.ts:1126 | without `max_chars_excerpt`, every HTTP row's snippet is at most 20000 characters and `…`, the default of `extractBodyText` |
| UrlScenarios.DeriveModuleBaseExample | src/server.ts:51-55 | the commented example: a unit URL with a `WT.mc_id` query maps to its module's base |
| UrlScenarios.AlphaSlug | src/server.ts:74-83 | `learn.wwl.foo.alpha` has the slug `alpha` |
| UrlScenarios.BetaSlug | src/server.ts:74-83 | `beta` has the slug `beta` |
| UrlScenarios.PairsExample | src/server.ts:290-296 | units `learn.wwl.foo.alpha` and `beta` under `…/modules/foo` are fetched at `…/foo/1-alpha/` and `…/foo/2-beta/` |
| Tools.ToolByName | src/http-server.ts:991-1014 | a dispatched name is the name of the tool it selects |
| Tools.ToolByNameOf | src/http-server.ts:991-1011 | every tool is dispatched under its own name |
| Tools.ListedNames | src/http-server.ts:788-943 | `tools/list` announces one name per tool, in order |
| Tools.ListedIffDispatched | src/http-server.ts:788-1014 | a name is dispatched exactly when `tools/list` announces it |
| Tools.ListCatalogItems | src/http-server.ts:1018-1022 | the listed items are a prefix of the requested type's array, which is empty when the type is missing |
| Tools.SearchCatalogItems | src/http-server.ts:1037-1053 | every result is held by a searched type and passes the free-text query, and a positive `max_results` bounds the count |
| Tools.RunTool | src/http-server.ts:1018-1194 | a tool body never throws an unknown-tool or missing-arguments error; only the scrape tool fails on a scrape; a catalog failure carries the catalog error; `simpleTest` echoes `msg`, `undefined` when it is absent |
| Tools.ExecuteToolCall | src/http-server.ts:987-1015 | an unknown name, an absent one included, fails exactly with `Unknown tool: <name>`; a known tool without arguments fails |
| Tools.HandleMcpRequest | src/http-server.ts:768-980 | the answers to `initialize` and `tools/list`; -32601 for `tools/call` before initialize and for unknown methods; any other error is -32603 from `tools/call`; an initialized `tools/call` without `params` fails exactly with the params error |
| Tools.UngatedMethods | src/http-server.ts:773-945 | `initialize` and `tools/list` answer alike on initialized and uninitialized sessions |
| Tools.UnknownToolIsInternalError | src/http-server.ts:957-979 | `tools/call` of an unknown tool is -32603 carrying `Unknown tool: <name>` |
| Tools.ToolsCallRunsTool | src/http-server.ts:947-961 | on an initialized session, `tools/call` of any tool by its name, with arguments, gives that tool's result or its error as -32603 |
| Http.HeaderCheck | src/http-server.ts:616-640 | the version and Accept checks fail with 400 and -32600 exactly when a non-empty version header differs or a non-empty Accept header names no usable type, the version failure naming the version sent |
| Http.EnvelopeCheck | src/http-server.ts:616-652 | the envelope fails with 400 and -32600 exactly when the version header differs, the Accept header names no usable type, or `jsonrpc` is not `"2.0"`; a header failure comes first |
| Http.Post | src/http-server.ts:613-726 | 500 exactly for a null or absent body that passes the header checks; 200 exactly for a JSON-RPC reply; a session header only with 200 and the fresh id; the registry changes only for a valid `initialize` |
| Http.Answer | src/http-server.ts:686-714 | 200 with a reply echoing the id exactly for a request; otherwise 202, no body and no change; the session header exactly for `initialize` requests, carrying the session id; no session is added or removed |
| Http.EnvelopeBeforeSessions | src/http-server.ts:616-652 | a failed header check answers its own 400 -32600 whatever the body, a null or absent one included; a failed envelope check on a body answers that check's 400; neither touches the registry |
| Http.MissingBodyAfterHeaders | src/http-server.ts:642-724 | a null or absent body that passes the header checks makes reading `jsonrpc` throw: 500 -32603 and no change |
| Http.AbsentVersionAccepted | src/http-server.ts:619 | an absent or empty protocol-version header passes |
| Http.InitializeCreatesSession | src/http-server.ts:658-705 | `initialize` adds a session under the fresh id, keeps every other session, returns the id and marks the session initialized for a request |
| Http.OtherMessagesNeedSession | src/http-server.ts:663-684 | any other message, a bare response included, gets 400 without a session header and 404 for an unknown id, with no change |
| Http.KnownSessionOutcomes | src/http-server.ts:686-714 | on a known session, a request gets one 200 reply echoing its id; notifications and bare responses get 202 and no body; the registry is unchanged |
| Http.PostPreservesRegistry | src/http-server.ts:655-714 | POST keeps every session under its own id, never removes one, never resets `initialized` and never changes a creation time |
| Http.AnswerKeepsRegistry | src/http-server.ts:686-714 | answering a message changes at most its own session, and only to mark it initialized |
| Http.ToolsCallBeforeInitialize | src/http-server.ts:947-955 | `tools/call` on an uninitialized session answers -32601 "Session not initialized" |
| Http.HandshakeOpensTools | src/http-server.ts:698-702 | after an `initialize` request, a `tools/call` sending back the returned id is dispatched to the tool |
| Http.Registry.constructor | src/http-server.ts:293 | the registry starts empty |
| Http.Registry.CreateSession | src/http-server.ts:295-314 | a new uninitialized session under a fresh id, with every other session kept |
| Http.Registry.GetSession | src/http-server.ts:316-318 | the session under the id if there is one, and it carries that id |
| Http.Registry.Expire | src/http-server.ts:308-311 | the expiry callback removes only its own id, and does nothing when that id is gone |
| Http.Registry.ExpireDue | src/http-server.ts:308-311 | the timers due by `now` leave exactly the sessions younger than one hour, unchanged |
| Http.Registry.HandleDelete | src/http-server.ts:750-763 | DELETE of a known id removes only that entry with 200; a missing or unknown id gives 404 and no change |
| Http.Registry.HandlePost | src/http-server.ts:613-726 | the POST handler with its early returns, a 500 for a null or absent body after the header checks included, gives exactly the response and new registry of `Http.Post`, and keeps every session under its own id |

## Left out

- Network, HTML and time are inputs: `fetch`, `fetchCatalog`, cheerio, html-to-text, `randomUUID`, `new Date()` and `setTimeout`. A tool call sees one catalog response. The query parameters `fetchCatalog` builds are not modelled.
- `pLimit(4)` and the `Promise.all` parallelism: the scrape is a sequential map. The output order is the same. When several fetches reject, the model reports the first in unit order rather than the first to settle.
- Concurrency between requests: each POST runs to completion before the next message is taken.
- Text.Lower: lowercases ASCII letters only. Other letters whose `toLowerCase` yields ASCII or several characters (the Kelvin sign, a dotted capital I) are not covered.
- Text.NatToString: lengths and indexes count characters, not UTF-16 code units; for decimal digits the two agree.
- Scrape.SliceTo: `slice` counts UTF-16 code units and the model counts characters. A character outside the Basic Multilingual Plane is one character here and two code units there.
- Scrape.Truncate: for the same reason the cut can differ. With `maxChars` 2, `a😀b` is cut to `a` plus the lone high surrogate of 😀 and `…` by `slice(0, 2)`, and to `a😀…` here.
- Scrape.ExtractBodyText: inherits the `Scrape.Truncate` difference, so its length bound is in characters, not code units.
- Catalog.SortByDuration: duration minutes are unbounded naturals. `parseInt` loses precision above 2^53.
- `sortByPopularity`, `sortByRating` and the duration-range filter of `getAdvancedSearch` use floating point and are not modelled.
- Tools.ExecuteToolCall: `findByProduct`, `findCertificationPath`, `getLearningPathDetails`, `getAdvancedSearch` and `scrapeLearningPath` are dispatched by name. Their answers are an input, because they are sequential awaits over the catalog with logging.
- The JSON formatting of tool results is not modelled: title and description fallbacks, the markdown of `getDetail`, JSON.stringify. The tool values are the items before formatting.
- Tools.HandleMcpRequest: the `data` of a -32603 error is the thrown error as a value, not its JavaScript message text. A TypeError's text in particular is not modelled.
- Http.Post: a null or absent body that passes the header checks gives 500 -32603 without its `data` text. Any other JSON value, an array included, is read through its `jsonrpc`, `method` and `id` fields, so an array gets 400 "Invalid JSON-RPC message". Errors thrown elsewhere in the handler are not modelled. A non-string `method`, and the JSON types of header and field values, are not modelled.
- The zod argument validation of the stdio server is not modelled. Arguments are taken as well-typed.
- GET `/mcp`, `/health`, `/`, CORS, security headers and `listen` are HTTP plumbing, not modelled.
- `handleMcpNotification` only logs, so it is not modelled.
- Http.Registry: sessions are values in the map. `session.initialized = true` is a map update. Nothing else holds a reference to a session, so no aliasing is lost.
