# Niord dictionaries, client-side helpers and small services — a Dafny model

Niord is a system for producing and publishing navigational warnings and notices to mariners.
This project models the parts of it that hold self-contained logic and proves properties of them.

- **Dictionary service** (`dictionary.dfy`, the main model). This is the store of named translation dictionaries. Each entry holds one value per language.
  - Creating, updating and deleting entries is validated.
  - A name-keyed cache holds read-only snapshots. Every successful mutation evicts the cache entry.
  - The default resource bundles are loaded in one of two modes. "Merge" fills only what is missing. "Override" writes every key of the bundle.
  - The persistent store is an in-memory map, and one sequential caller is modelled.
- **Ordered map and start-up choices** (`ordered_map.dfy`). This is the browser's insertion-ordered `Map`: a keys array plus a data object. It also covers the choice of the initial language and application space.
- **Web utilities** (`web_utils.dfy`):
  - the query-string parser (the query component of section 3.4 of RFC 3986);
  - the Content-Disposition filename extraction (a simplified form of section 4.2 of RFC 7578);
  - the URL-decoding fallback.
- **ETag filter** (`etag_filter.dfy`). It formats entity tags in the syntax of section 2.3 of RFC 7232. Its If-None-Match check (section 3.2 of RFC 7232) compares strings exactly, not with the weak comparison function. The model also covers its "-gzip" trimming and the request gate in `doFilter`.
- **Charts** (`chart.dfy`): the search sort key and the full chart-number display string.
- **Site configuration route** (`site_config.dfy`). It splices the generated settings script and the domain list between the markers of the `site-config.js` template.
- **Chart import reader** (`batch_reader.dfy`): a checkpointable cursor over the charts of a batch job.
- **AtoN page** (`atons.dfy`). It draws GeoJSON features from the selected aids to navigation. The validity thresholds and the closed polygon rings follow sections 3.1.4 and 3.1.6 of RFC 7946. It also covers feature reordering, the filters and the request parameters they build.
- **Message editor** (`editor.dfy`):
  - field visibility;
  - the chart, reference and date-interval lists;
  - the checks made before saving and publishing;
  - the message-status guards of verify, publish, delete and cancel;
  - the history selection.
- **Test REST service** (`test_rest.dfy`). It builds the area and category lookup from the trees, searches by name with a limit, fetches by id list and makes parent-lineage copies.
- **Publication search parameters** (`publication_search.dfy`): the chaining setters and the one-line description of the criteria.
- Shared helpers are in `wrappers.dfy` (the optional value and the value-or-error outcome), `sequences.dfy` (the array search of `indexOf` and `$.inArray`), `strings.dfy` (Java and JavaScript string operations) and `sorting.dfy` (a stable sort by a total preorder, and lexicographic string order).

Where the code and its own comments or error handling point different ways, the model follows the code:

- **Missing resource bundle.** `loadResourceBundle` wraps the reading of each bundle in a `catch (IOException)` that logs the failure and goes on with the next language, so a bundle that cannot be read was meant to be skipped. A resource that does not exist raises a NullPointerException instead, which that handler does not catch, so the loading of every later bundle stops (see Findings).
- **Chart sort key.** The doc comment of `computeSearchSortKey` ranks a chart-number match highest. The code ranks an international-number match first, then a name match, then a chart-number match. `Charts.ChartNumberRatesLowest` shows this.
- **Blank bundle values.** `createEntry` drops blank values, but merge and override store a bundle value as it is. So "every entry has a non-blank value" holds only for entries created through `createEntry`.

## Model

Each row names the member whose contract states the property. A function that only computes a value has a row of its own citing the lines it models; its "states" cell names the lemmas and methods that specify it, and those have rows of their own.

| member | source | states |
|---|---|---|
| Dictionaries.ToVo | niord-core/src/main/java/org/niord/core/dictionary/DictionaryService.java:224-225 | the snapshot of a dictionary has its name, its keys and, per key, the entry's language values |
| Dictionaries.DropBlanks | niord-core/src/main/java/org/niord/core/dictionary/DictionaryService.java:131 | dropping blank descriptions keeps exactly the defined ones, unchanged |
| Dictionaries.CopyDescsAndRemoveBlanks | niord-core/src/main/java/org/niord/core/dictionary/DictionaryService.java:168 | an update takes every defined new value and keeps the original values it does not replace; no blank value remains and no language appears from nowhere |
| Dictionaries.UpsertDesc | niord-core/src/main/java/org/niord/core/dictionary/DictionaryService.java:439-446 | the private `updateEntry` creates the entry if missing and sets its value for the language; other languages and other keys are unchanged |
| Dictionaries.OverlayStep | niord-core/src/main/java/org/niord/core/dictionary/DictionaryService.java:420-422 | writing a bundle of one more key is writing the smaller bundle and then that key |
| Dictionaries.OverlayKeepsKeys | niord-core/src/main/java/org/niord/core/dictionary/DictionaryService.java:439-446 | writing a bundle keeps every entry filed under its own key |
| Dictionaries.ApplyBundle | niord-core/src/main/java/org/niord/core/dictionary/DictionaryService.java:420-422 | the loop over the bundle keys leaves the entries the bundle overlay describes, whatever the key order |
| Dictionaries.Restrict | niord-core/src/main/java/org/niord/core/dictionary/DictionaryService.java:364-368 | restricting a bundle to some keys keeps exactly those keys with their values |
| Dictionaries.MissingKeys | niord-core/src/main/java/org/niord/core/dictionary/DictionaryService.java:363-368 | a bundle key is missing iff the dictionary, the entry or its value for the language is absent |
| Dictionaries.ToProperties | niord-core/src/main/java/org/niord/core/dictionary/DictionaryService.java:257 | the properties of a snapshot are exactly the keys having a value in the language, with that value |
| Dictionaries.MergeNeverOverwrites | niord-core/src/main/java/org/niord/core/dictionary/DictionaryService.java:356-393 | merging a bundle never removes or changes an existing value, in any dictionary, entry or language |
| Dictionaries.MergeFillsMissing | niord-core/src/main/java/org/niord/core/dictionary/DictionaryService.java:364-385 | after a merge every bundle key has a value in the language, and each missing one has the bundle's value |
| Dictionaries.MergeIsLocal | niord-core/src/main/java/org/niord/core/dictionary/DictionaryService.java:356-393 | a merge touches only the named dictionary, only bundle keys and only the bundle's language |
| Dictionaries.MergeIdempotent | niord-core/src/main/java/org/niord/core/dictionary/DictionaryService.java:356-393 | merging the same bundle twice is merging it once |
| Dictionaries.OverrideSetsAll | niord-core/src/main/java/org/niord/core/dictionary/DictionaryService.java:402-429 | a non-empty override sets every bundle key's value in the language, creating the dictionary if needed, and keeps other languages, other keys and other dictionaries |
| Dictionaries.MergeAfterOverride | niord-core/src/main/java/org/niord/core/dictionary/DictionaryService.java:356-429 | merging a bundle after overriding with it changes nothing |
| Dictionaries.ReconcileWellFormed | niord-core/src/main/java/org/niord/core/dictionary/DictionaryService.java:335-342 | merge and override keep every entry and dictionary filed under its own key and name |
| Dictionaries.LoadBaseMergeKeeps | niord-core/src/main/java/org/niord/core/dictionary/DictionaryService.java:322-347 | loading a bundle in merge mode for every language keeps every existing value |
| Dictionaries.LoadAllMergeKeeps | niord-core/src/main/java/org/niord/core/dictionary/DictionaryService.java:310-313 | loading all default bundles in merge mode keeps every existing value |
| Dictionaries.LoadBaseWellFormed | niord-core/src/main/java/org/niord/core/dictionary/DictionaryService.java:322-347 | loading a bundle in either mode keeps the store well formed |
| Dictionaries.LoadBaseOnlyTouchesBase | niord-core/src/main/java/org/niord/core/dictionary/DictionaryService.java:322-347 | loading a bundle changes or creates only the dictionary of that name |
| Dictionaries.MergeScenario | niord-core/src/main/java/org/niord/core/dictionary/DictionaryService.java:326-342 | merging an English and a Danish bundle into an empty store gives one entry with both values |
| Dictionaries.MergeVersusOverride | niord-core/src/main/java/org/niord/core/dictionary/DictionaryService.java:335-342 | merge leaves an existing value alone where override replaces it |
| Dictionaries.Units | niord-core/src/main/java/org/niord/core/dictionary/DictionaryService.java:312-326 | the bundle resources tried are every pair of default bundle and language |
| Dictionaries.LoadedAsWritten | niord-core/src/main/java/org/niord/core/dictionary/DictionaryService.java:331-333 | as written, loading stops at the first missing resource: the loaded bundles are the available prefix |
| Dictionaries.LoadedSkipping | niord-core/src/main/java/org/niord/core/dictionary/DictionaryService.java:326-346 | skipping missing resources loads exactly the available ones |
| Dictionaries.MissingBundleAbortsLoading | niord-core/src/main/java/org/niord/core/dictionary/DictionaryService.java:331-333 | with "web_da" missing, the code loads only "web_en", though "message_en" is available |
| Dictionaries.SkippingLoadsEveryAvailable | niord-core/src/main/java/org/niord/core/dictionary/DictionaryService.java:326-346 | when skipping, every available bundle resource is loaded |
| Dictionaries.ReconcileUnitsAppend | niord-core/src/main/java/org/niord/core/dictionary/DictionaryService.java:310-313 | reconciling two runs of bundles one after the other is reconciling their concatenation |
| Dictionaries.ReconcileUnitsSkipping | niord-core/src/main/java/org/niord/core/dictionary/DictionaryService.java:326-346 | dropping the missing resources beforehand gives the same store as passing over them one by one |
| Dictionaries.LoadBaseIsRow | niord-core/src/main/java/org/niord/core/dictionary/DictionaryService.java:326-346 | loading one base name is reconciling its bundles language by language |
| Dictionaries.LoadAllIsFold | niord-core/src/main/java/org/niord/core/dictionary/DictionaryService.java:310-346 | loading every default bundle, skipping missing ones, gives the store that reconciling the available bundles in loading order gives |
| Dictionaries.ReconcileUnitsKeepsNames | niord-core/src/main/java/org/niord/core/dictionary/DictionaryService.java:356-429 | loading bundles never removes a dictionary |
| Dictionaries.ReconcileUnitsCreates | niord-core/src/main/java/org/niord/core/dictionary/DictionaryService.java:356-429 | a loaded non-empty bundle leaves its dictionary in the store, whatever is loaded after it |
| Dictionaries.LoadAllLoadsEveryAvailable | niord-core/src/main/java/org/niord/core/dictionary/DictionaryService.java:310-346 | skipping missing resources, every base name with a non-empty bundle in some language becomes a dictionary |
| Dictionaries.MissingBundleLosesDictionary | niord-core/src/main/java/org/niord/core/dictionary/DictionaryService.java:331-333 | as written, a missing "web_da" bundle leaves the "message" dictionary out of the store although "message_en" exists; skipping creates it |
| Dictionaries.DictionaryService.FindByName | niord-core/src/main/java/org/niord/core/dictionary/DictionaryService.java:100-109 | the dictionary of that name, or null exactly when there is none |
| Dictionaries.DictionaryService.CreateEntry | niord-core/src/main/java/org/niord/core/dictionary/DictionaryService.java:120-146 | fails for a missing dictionary, an existing key or no defined value, changing nothing; otherwise stores the entry without blank values and evicts the cache |
| Dictionaries.DictionaryService.UpdateEntry | niord-core/src/main/java/org/niord/core/dictionary/DictionaryService.java:157-177 | fails for a missing dictionary or key, changing nothing; otherwise returns the original entry with the copied values and evicts the cache |
| Dictionaries.DictionaryService.DeleteEntry | niord-core/src/main/java/org/niord/core/dictionary/DictionaryService.java:188-208 | fails for a missing dictionary; returns false and changes nothing for a missing key; otherwise removes exactly that key and evicts the cache |
| Dictionaries.DictionaryService.GetCachedDictionary | niord-core/src/main/java/org/niord/core/dictionary/DictionaryService.java:217-230 | a hit returns the cached snapshot; a miss caches and returns a fresh snapshot iff the dictionary exists, else null with the cache unchanged |
| Dictionaries.DictionaryService.Value | niord-core/src/main/java/org/niord/core/dictionary/DictionaryService.java:240-243 | the stored value of the key in the language, or null exactly when the dictionary, key or value is missing |
| Dictionaries.DictionaryService.GetDictionaryNames | niord-core/src/main/java/org/niord/core/dictionary/DictionaryService.java:86-91 | the names of all dictionaries, each once, in sorted order |
| Dictionaries.DictionaryService.GetDictionariesAsProperties | niord-core/src/main/java/org/niord/core/dictionary/DictionaryService.java:254-260 | the union of the dictionaries' properties, later names winning; a NullPointerException exactly when a name is unknown |
| Dictionaries.DictionaryService.MergeDictWithResourceBundle | niord-core/src/main/java/org/niord/core/dictionary/DictionaryService.java:356-393 | the store after a merge, and the cache: unchanged for an empty bundle, evicted when keys were missing, else holding the looked-up snapshot |
| Dictionaries.DictionaryService.UpdateDictFromResourceBundle | niord-core/src/main/java/org/niord/core/dictionary/DictionaryService.java:402-429 | the store after an override, and the cache evicted unless the bundle is empty |
| Dictionaries.DictionaryService.LoadResourceBundle | niord-core/src/main/java/org/niord/core/dictionary/DictionaryService.java:322-347 | each language's bundle merged or overridden in turn, skipping missing ones; only the base's cache entry can change |
| Dictionaries.DictionaryService.LoadDefaultResourceBundles | niord-core/src/main/java/org/niord/core/dictionary/DictionaryService.java:310-313 | the five default bundles loaded in order; caches of other dictionaries stay |
| Dictionaries.Overlay | niord-core/src/main/java/org/niord/core/dictionary/DictionaryService.java:420-422 | the entries after a bundle is written key by key; specified by OverlayStep, OverlayKeepsKeys and ApplyBundle |
| Dictionaries.MergedStore | niord-core/src/main/java/org/niord/core/dictionary/DictionaryService.java:356-393 | the store after `mergeDictWithResourceBundle`; specified by MergeNeverOverwrites, MergeFillsMissing, MergeIsLocal and MergeIdempotent |
| Dictionaries.OverriddenStore | niord-core/src/main/java/org/niord/core/dictionary/DictionaryService.java:402-429 | the store after `updateDictFromResourceBundle`; specified by OverrideSetsAll and MergeAfterOverride |
| Dictionaries.Reconcile | niord-core/src/main/java/org/niord/core/dictionary/DictionaryService.java:335-342 | one bundle applied in merge or override mode; specified by ReconcileWellFormed and MergeVersusOverride |
| Dictionaries.LoadBase | niord-core/src/main/java/org/niord/core/dictionary/DictionaryService.java:322-347 | one base name loaded for every language, skipping a missing bundle; specified by LoadBaseMergeKeeps, LoadBaseWellFormed, LoadBaseOnlyTouchesBase and LoadBaseIsRow |
| Dictionaries.LoadAll | niord-core/src/main/java/org/niord/core/dictionary/DictionaryService.java:310-313 | every default base name loaded in list order; specified by LoadAllMergeKeeps, LoadAllIsFold and LoadAllLoadsEveryAvailable |
| Dictionaries.ReconcileUnits | niord-core/src/main/java/org/niord/core/dictionary/DictionaryService.java:310-346 | the bundles of a list of (base, language) units reconciled in order; specified by ReconcileUnitsAppend, ReconcileUnitsSkipping, ReconcileUnitsKeepsNames and ReconcileUnitsCreates |
| Dictionaries.AsWrittenStore | niord-core/src/main/java/org/niord/core/dictionary/DictionaryService.java:331-333 | the store as written, where loading stops at the first missing bundle; specified by MissingBundleLosesDictionary |
| CommonService.PutThenGet | niord-web/src/main/webapp/app/common/common-service.js:139-148 | `get` returns what was last `put` for the key, except for `__proto__`, whose put changes nothing `get` reads; other keys are unaffected |
| CommonService.PutKeyOrder | niord-web/src/main/webapp/app/common/common-service.js:139-144 | a new key is appended to `keys` unless it names an `Object.prototype` member, which is not appended; a present key keeps the key order |
| CommonService.PutKeepsTidy | niord-web/src/main/webapp/app/common/common-service.js:139-144 | putting a non-null value under an ordinary key keeps keys distinct and in step with the data; under an inherited member's name the value is stored but the key is not listed |
| CommonService.InheritedNameNotListed | niord-web/src/main/webapp/app/common/common-service.js:139-144 | `put("constructor", v)` on an empty map stores `v` but leaves `keys` and `entries()` empty |
| CommonService.InheritedNameReadsNonNull | niord-web/src/main/webapp/app/common/common-service.js:146-148 | `get("toString")` on an empty map reads the inherited member, not `undefined` |
| CommonService.ProtoKeyNotStored | niord-web/src/main/webapp/app/common/common-service.js:139-148 | `put("__proto__", v)` on an empty map leaves it unchanged, and `get` does not return `v` |
| CommonService.NullValueDuplicatesKey | niord-web/src/main/webapp/app/common/common-service.js:140-142 | re-putting a key whose value is null appends it to `keys` a second time |
| CommonService.RemoveDeletes | niord-web/src/main/webapp/app/common/common-service.js:150-156 | `remove` deletes the key from `keys` and `data`, leaves `keys` alone for an absent key, and keeps the map tidy |
| CommonService.SizeCountsKeys | niord-web/src/main/webapp/app/common/common-service.js:186-188 | in a tidy map the number of keys equals the number of stored entries |
| CommonService.OrderedMap.Put | niord-web/src/main/webapp/app/common/common-service.js:139-144 | the new state is the put of the key and value, the `== null` test reading inherited members too |
| CommonService.OrderedMap.Get | niord-web/src/main/webapp/app/common/common-service.js:146-148 | the stored value; for an absent key, the inherited member when the key names one, else undefined |
| CommonService.OrderedMap.Remove | niord-web/src/main/webapp/app/common/common-service.js:150-156 | the new state is the removal of the key |
| CommonService.OrderedMap.Each | niord-web/src/main/webapp/app/common/common-service.js:158-167 | the callback is called once per key, in key order, with key, value and index; not at all without a function |
| CommonService.OrderedMap.Entries | niord-web/src/main/webapp/app/common/common-service.js:169-180 | the key/value pairs in key insertion order |
| CommonService.OrderedMap.Size | niord-web/src/main/webapp/app/common/common-service.js:186-188 | the number of keys, which in a tidy map is the number of entries |
| CommonService.OrderedMap.IsEmpty | niord-web/src/main/webapp/app/common/common-service.js:182-184 | empty iff the size is 0 |
| CommonService.OrderedMap.Clear | niord-web/src/main/webapp/app/common/common-service.js:190-193 | both structures are emptied |
| CommonService.LanguageChoice | niord-web/src/main/webapp/app/common/common-service.js:24-31 | the stored language is kept iff it is a non-empty site language, else the first site language is chosen |
| CommonService.Matching | niord-web/src/main/webapp/app/common/common-service.js:53-55 | the spaces whose id equals the stored id |
| CommonService.MatchingNone | niord-web/src/main/webapp/app/common/common-service.js:53-55 | no space matches when no id equals the stored one |
| CommonService.MatchingDistinct | niord-web/src/main/webapp/app/common/common-service.js:53-55 | with distinct ids, exactly the space with the stored id matches |
| CommonService.StoredSpaceChosen | niord-web/src/main/webapp/app/common/common-service.js:52-60 | with distinct ids, the space with the stored id is chosen |
| CommonService.NoMatchFirstSpace | niord-web/src/main/webapp/app/common/common-service.js:52-60 | without a match, the first space is chosen |
| CommonService.Session.ChangeLanguage | niord-web/src/main/webapp/app/common/common-service.js:14-20 | the current and the stored language become the given one |
| CommonService.Session.InitLanguage | niord-web/src/main/webapp/app/common/common-service.js:24-31 | the language chosen from the stored one and the site languages becomes current and stored |
| CommonService.Session.InitAppSpace | niord-web/src/main/webapp/app/common/common-service.js:44-60 | the chosen space becomes current and its id is stored; with no spaces `changeAppSpace` fails on undefined |
| CommonService.Lookup | niord-web/src/main/webapp/app/common/common-service.js:146-148 | `data[key]`: an own property, an inherited member or nothing; specified by PutThenGet, InheritedNameReadsNonNull and ProtoKeyNotStored |
| CommonService.AfterPut | niord-web/src/main/webapp/app/common/common-service.js:139-144 | the keys and data after `put`; specified by PutThenGet, PutKeyOrder, PutKeepsTidy and NullValueDuplicatesKey |
| CommonService.AfterRemove | niord-web/src/main/webapp/app/common/common-service.js:150-156 | the keys and data after `remove`; specified by RemoveDeletes |
| CommonService.SelectLanguage | niord-web/src/main/webapp/app/common/common-service.js:24-31 | the language `initLanguage` picks; specified by LanguageChoice |
| CommonService.SelectSpace | niord-web/src/main/webapp/app/common/common-service.js:52-60 | the application space `initAppSpace` picks; specified by StoredSpaceChosen and NoMatchFirstSpace |
| WebUtils.UrlDecode | niord-core/src/main/java/org/niord/core/util/WebUtils.java:220-226 | the decoded value, or the input unchanged when decoding fails |
| WebUtils.QueryText | niord-core/src/main/java/org/niord/core/util/WebUtils.java:113-119 | the text parsed is never blank |
| WebUtils.ValuesForAbsent | niord-core/src/main/java/org/niord/core/util/WebUtils.java:129-130 | a key that no segment has gets no values |
| WebUtils.ParseStep | niord-core/src/main/java/org/niord/core/util/WebUtils.java:120-131 | one more segment adds its key and appends its value to that key only |
| WebUtils.DescribesStep | niord-core/src/main/java/org/niord/core/util/WebUtils.java:129-130 | `computeIfAbsent(...).add(value)` keeps the map describing the segments read so far |
| WebUtils.ParseParameterMap | niord-core/src/main/java/org/niord/core/util/WebUtils.java:110-137 | the map has exactly the decoded keys of the segments, each with its values in order of appearance |
| WebUtils.BlankUrlNoParameters | niord-core/src/main/java/org/niord/core/util/WebUtils.java:113-136 | a null or blank URL, or a blank query, gives no parameters |
| WebUtils.OnlyAfterQuestionMark | niord-core/src/main/java/org/niord/core/util/WebUtils.java:113-120 | only the text after the first '?' is split on '&' |
| WebUtils.SplitAtFirstEquals | niord-core/src/main/java/org/niord/core/util/WebUtils.java:122-128 | "k=a=b" gives key "k" and value "a=b" |
| WebUtils.NoEqualsEmptyValue | niord-core/src/main/java/org/niord/core/util/WebUtils.java:121-125 | a segment without '=' is a key with the value "" |
| WebUtils.RepeatedKeysAccumulate | niord-core/src/main/java/org/niord/core/util/WebUtils.java:129-130 | "a=1&a=2" gives "a" the values "1" then "2" |
| WebUtils.FileNameBetweenEquals | niord-core/src/main/java/org/niord/core/util/WebUtils.java:313-314 | the name is the text between the first two '=' of the segment, trimmed, without '"'; an index error when no such piece exists |
| WebUtils.FilenameIndex | niord-core/src/main/java/org/niord/core/util/WebUtils.java:311-312 | the first segment whose trimmed text starts with "filename", or none |
| WebUtils.GetFileName | niord-core/src/main/java/org/niord/core/util/WebUtils.java:307-319 | the name from the first filename segment, "unknown" when there is none, a NullPointerException without the header |
| WebUtils.Segments | niord-core/src/main/java/org/niord/core/util/WebUtils.java:113-120 | the `&`-separated pieces of the query; specified by OnlyAfterQuestionMark and BlankUrlNoParameters |
| WebUtils.ParsePair | niord-core/src/main/java/org/niord/core/util/WebUtils.java:121-128 | one piece split at its first `=` and decoded; specified by SplitAtFirstEquals and NoEqualsEmptyValue |
| WebUtils.ValuesFor | niord-core/src/main/java/org/niord/core/util/WebUtils.java:129-130 | the values a key collects, in order; specified by ValuesForAbsent, RepeatedKeysAccumulate and ParseStep |
| ETagFilter.NewEntityTag | niord-web/src/main/java/org/niord/web/ETagServletFilter.java:182-188 | a null value is refused with IllegalArgumentException, any other is kept with its weakness |
| ETagFilter.TagStringRoundTrip | niord-web/src/main/java/org/niord/web/ETagServletFilter.java:191-196 | `W/"v"` or `"v"` can be read back to the same tag |
| ETagFilter.TagStringInjective | niord-web/src/main/java/org/niord/web/ETagServletFilter.java:191-196 | different tags print differently |
| ETagFilter.TrimWithoutGzip | niord-web/src/main/java/org/niord/web/ETagServletFilter.java:162-167 | null and values without "-gzip" pass unchanged |
| ETagFilter.TrimGzipSuffix | niord-web/src/main/java/org/niord/web/ETagServletFilter.java:162-167 | the "-gzip" added inside a quoted tag is removed |
| ETagFilter.TrimIsSinglePass | niord-web/src/main/java/org/niord/web/ETagServletFilter.java:162-167 | the removal is one left-to-right pass: "--gzipgzip" becomes "-gzip" |
| ETagFilter.IsChromeIffMentionsChrome | niord-web/src/main/java/org/niord/web/ETagServletFilter.java:102-105 | a request is from Chrome iff its user agent is present and contains "Chrome" |
| ETagFilter.GateExcludesConf | niord-web/src/main/java/org/niord/web/ETagServletFilter.java:62-67 | every path that passes the gate is not a "/conf/" path, so that test never excludes anything |
| ETagFilter.ExactNotWeakComparison | niord-web/src/main/java/org/niord/web/ETagServletFilter.java:146-149 | the strong tag `"17_4"` does not match the weak tag `W/"17_4"` |
| ETagFilter.EvaluatePreconditions | niord-web/src/main/java/org/niord/web/ETagServletFilter.java:139-158 | no tag: false and nothing set; otherwise the ETag header is set, and 304 with true iff a trimmed If-None-Match value equals the tag |
| ETagFilter.DoFilter | niord-web/src/main/java/org/niord/web/ETagServletFilter.java:60-89 | outside the gate, without Chrome or without a file nothing changes; on a match 304 and stop; otherwise If-Modified-Since and Last-Modified are dropped and the chain goes on |
| ETagFilter.TagString | niord-web/src/main/java/org/niord/web/ETagServletFilter.java:191-196 | `EntityTag.toString`; specified by TagStringRoundTrip (with ParseTag as its inverse) and TagStringInjective |
| ETagFilter.TrimEtagValue | niord-web/src/main/java/org/niord/web/ETagServletFilter.java:162-167 | `trimEtagValue`; specified by TrimWithoutGzip, TrimGzipSuffix and TrimIsSinglePass |
| ETagFilter.IsChrome | niord-web/src/main/java/org/niord/web/ETagServletFilter.java:102-105 | `isChrome`; specified by IsChromeIffMentionsChrome |
| ETagFilter.AnyMatch | niord-web/src/main/java/org/niord/web/ETagServletFilter.java:146-149 | the If-None-Match comparison; specified by ExactNotWeakComparison and EvaluatePreconditions |
| Charts.FullChartNumber | niord-core/src/main/java/org/niord/core/model/Chart.java:113-117 | the chart number alone iff there is no international number, else followed by " (INT n)" |
| Charts.SortKeyBounds | niord-core/src/main/java/org/niord/core/model/Chart.java:126-144 | the key is never positive, and is 0 for a blank term or when no field contains it |
| Charts.InternationalNumberFirst | niord-core/src/main/java/org/niord/core/model/Chart.java:136-137 | an international-number match decides the key alone |
| Charts.NameBeforeChartNumber | niord-core/src/main/java/org/niord/core/model/Chart.java:138-139 | a name match, without an international-number match, gives -5 times its index |
| Charts.ChartNumberRatesLowest | niord-core/src/main/java/org/niord/core/model/Chart.java:124-142 | with the term in both name and chart number, the name decides, contrary to the doc comment |
| Charts.SortKeyCaseInsensitive | niord-core/src/main/java/org/niord/core/model/Chart.java:130-133 | the key ignores the case of the term, the chart number and the name |
| Charts.DanishNameMatches | niord-core/src/main/java/org/niord/core/model/Chart.java:126-142 | the term "ærø" is found in the name "Lille Ærø", giving the name-match key |
| Charts.SearchSortKey | niord-core/src/main/java/org/niord/core/model/Chart.java:124-144 | `computeSearchSortKey`; specified by SortKeyBounds, InternationalNumberFirst, NameBeforeChartNumber, ChartNumberRatesLowest, SortKeyCaseInsensitive and DanishNameMatches |
| SiteConfig.EscapeKeyChars | niord-web/src/main/java/org/niord/web/conf/SiteConfigRoute.java:139-141 | escaping keeps the length, turns each '.' and ' ' into '_' and changes nothing else |
| SiteConfig.BlocksAppend | niord-web/src/main/java/org/niord/web/conf/SiteConfigRoute.java:95-113 | each setting contributes its own block, independently of the others |
| SiteConfig.SingleSetting | niord-web/src/main/java/org/niord/web/conf/SiteConfigRoute.java:98-108 | one serialisable setting gives its description comment and `$rootScope.<key> = <value>;` |
| SiteConfig.FailedValueLeavesPartialAssignment | niord-web/src/main/java/org/niord/web/conf/SiteConfigRoute.java:102-112 | a value that fails to serialise leaves `$rootScope.<key> = ` without a value |
| SiteConfig.WebSettings | niord-web/src/main/java/org/niord/web/conf/SiteConfigRoute.java:90-115 | the script is a newline and then every setting's block, in order |
| SiteConfig.DomainsScript | niord-web/src/main/java/org/niord/web/conf/SiteConfigRoute.java:121-136 | the text starts with `    $rootScope.domains = `, ends with ";" and two newlines, and holds the JSON, or "[]" when serialising fails |
| SiteConfig.UpdateResponse | niord-web/src/main/java/org/niord/web/conf/SiteConfigRoute.java:71-85 | a template missing either marker is returned unchanged |
| SiteConfig.SpliceTemplate | niord-web/src/main/java/org/niord/web/conf/SiteConfigRoute.java:73-81 | the text before the start marker and after the end marker is kept; both markers and what is between them become the settings and the domains |
| SiteConfig.EscapeKey | niord-web/src/main/java/org/niord/web/conf/SiteConfigRoute.java:139-141 | `escapeKey`; specified by EscapeKeyChars |
| SiteConfig.SettingBlock | niord-web/src/main/java/org/niord/web/conf/SiteConfigRoute.java:98-112 | the text one web setting adds; specified by SingleSetting and FailedValueLeavesPartialAssignment |
| SiteConfig.SettingsScript | niord-web/src/main/java/org/niord/web/conf/SiteConfigRoute.java:90-115 | `getWebSettings`; specified by BlocksAppend and computed by WebSettings |
| BatchChartImport.Percent | niord-core/src/main/java/org/niord/core/chart/batch/BatchChartImportReader.java:80 | the progress is the percentage of charts read, rounded down, below 100 |
| BatchChartImport.StepBounds | niord-core/src/main/java/org/niord/core/chart/batch/BatchChartImportReader.java:75-87 | a read returns null and changes nothing iff the charts are exhausted; the index never passes the size; progress only at multiples of 10 |
| BatchChartImport.RunReadsInOrder | niord-core/src/main/java/org/niord/core/chart/batch/BatchChartImportReader.java:75-87 | n reads return the next n charts in order, then nulls, and the index stops at the size |
| BatchChartImport.RunSplit | niord-core/src/main/java/org/niord/core/chart/batch/BatchChartImportReader.java:75-87 | n then m reads are n + m reads |
| BatchChartImport.ResumeFromCheckpoint | niord-core/src/main/java/org/niord/core/chart/batch/BatchChartImportReader.java:56-93 | reopening at the checkpoint taken after n reads continues exactly as if no restart had happened |
| BatchChartImport.BatchReader.Open | niord-core/src/main/java/org/niord/core/chart/batch/BatchChartImportReader.java:56-71 | the charts are loaded and the index is the checkpoint if given, else unchanged |
| BatchChartImport.BatchReader.ReadItem | niord-core/src/main/java/org/niord/core/chart/batch/BatchChartImportReader.java:75-87 | the new state, item and progress are one read step |
| BatchChartImport.BatchReader.CheckpointInfo | niord-core/src/main/java/org/niord/core/chart/batch/BatchChartImportReader.java:91-93 | opening the same charts at the returned checkpoint restores the current state |
| BatchChartImport.OpenState | niord-core/src/main/java/org/niord/core/chart/batch/BatchChartImportReader.java:56-71 | the reader state after `open`; specified by ResumeFromCheckpoint and BatchReader.Open |
| BatchChartImport.ReadStep | niord-core/src/main/java/org/niord/core/chart/batch/BatchChartImportReader.java:75-87 | one `readItem`; specified by StepBounds and BatchReader.ReadItem |
| BatchChartImport.Run | niord-core/src/main/java/org/niord/core/chart/batch/BatchChartImportReader.java:75-87 | successive reads; specified by RunReadsInOrder, RunSplit and ResumeFromCheckpoint |
| Atons.NonEmpty | niord-web/src/main/webapp/app/atons/atons-ctrl.js:277-279 | exactly the features with at least one AtoN are kept |
| Atons.CoordsUpdated | niord-web/src/main/webapp/app/atons/atons-ctrl.js:275-314 | the kept features, each with its validity and coordinates recomputed |
| Atons.RefreshedDrawn | niord-web/src/main/webapp/app/atons/atons-ctrl.js:282-313 | a refreshed feature has the validity rule's flag and coordinates shaped for its geometry type |
| Atons.CoordsUpdatedShape | niord-web/src/main/webapp/app/atons/atons-ctrl.js:275-314 | every feature after the update is drawn that way |
| Atons.ValidFeaturesAreGeoJson | niord-web/src/main/webapp/app/atons/atons-ctrl.js:282-313 | a feature marked valid has coordinates a GeoJSON geometry of its type allows, with closed polygon rings of at least four positions |
| Atons.CoordsUpdatedIdempotent | niord-web/src/main/webapp/app/atons/atons-ctrl.js:275-314 | updating the coordinates twice is updating them once |
| Atons.NonEmptyKeepsAll | niord-web/src/main/webapp/app/atons/atons-ctrl.js:277-279 | filtering features that all have AtoNs keeps them all |
| Atons.Swapped | niord-web/src/main/webapp/app/atons/atons-ctrl.js:363-370 | both indices in bounds: the two elements exchange and the rest stay; otherwise nothing changes |
| Atons.SwapTwice | niord-web/src/main/webapp/app/atons/atons-ctrl.js:363-370 | swapping twice restores the array |
| Atons.SwapElements | niord-web/src/main/webapp/app/atons/atons-ctrl.js:363-370 | the array afterwards is the bounds-checked swap of its old contents |
| Atons.MoveNoOps | niord-web/src/main/webapp/app/atons/atons-ctrl.js:382-395 | moving an absent feature, the first one up or the last one down changes nothing; moves only reorder |
| Atons.MoveUpThenDown | niord-web/src/main/webapp/app/atons/atons-ctrl.js:382-395 | moving a feature up and then down restores the list |
| Atons.SelectedAtons | niord-web/src/main/webapp/app/atons/atons-ctrl.js:322-324 | exactly the AtoNs of a feature that are selected are kept |
| Atons.Pruned | niord-web/src/main/webapp/app/atons/atons-ctrl.js:321-328 | each feature keeps only its selected AtoNs |
| Atons.FeatureUids | niord-web/src/main/webapp/app/atons/atons-ctrl.js:325-327 | the uids of all AtoNs drawn by the features |
| Atons.NewUids | niord-web/src/main/webapp/app/atons/atons-ctrl.js:331-333 | the selection keys not drawn by any feature |
| Atons.NewFeatures | niord-web/src/main/webapp/app/atons/atons-ctrl.js:336-348 | one Point feature per new uid, drawn from that selected AtoN |
| Atons.CoordsUpdatedKeepsAtons | niord-web/src/main/webapp/app/atons/atons-ctrl.js:275-314 | updating the coordinates keeps every drawn AtoN drawn and adds none |
| Atons.SelectionUpdatedCoversSelection | niord-web/src/main/webapp/app/atons/atons-ctrl.js:317-352 | afterwards the features draw only selected AtoNs and every selected uid is drawn |
| Atons.ParametersShape | niord-web/src/main/webapp/app/atons/atons-ctrl.js:121-151 | once the leading '&' is skipped the parameters never start with '&' and always end with the limit; with no filter they are the limit alone |
| Atons.AppendCharts | niord-web/src/main/webapp/app/atons/atons-ctrl.js:136-140 | one "&chart=" part per selected chart, in order |
| Atons.AppendAreas | niord-web/src/main/webapp/app/atons/atons-ctrl.js:141-145 | one "&area=" part per selected area, in order |
| Atons.WithValidity | niord-web/src/main/webapp/app/atons/atons-ctrl.js:282-289 | each feature's flag is set by its type and AtoN count: Point 1, MultiPoint at least 1, LineString more than 1, Polygon more than 2 |
| Atons.SetValidity | niord-web/src/main/webapp/app/atons/atons-ctrl.js:282-289 | the loop sets every feature's flag as the rule says |
| Atons.SetCoordinates | niord-web/src/main/webapp/app/atons/atons-ctrl.js:292-313 | the loop sets every feature's coordinates from its AtoN list |
| Atons.FeatureCoords | niord-web/src/main/webapp/app/atons/atons-ctrl.js:293-311 | the first AtoN for a Point, the AtoNs in order for MultiPoint and LineString, the ring closed by the first AtoN for a Polygon |
| Atons.GrepNonEmpty | niord-web/src/main/webapp/app/atons/atons-ctrl.js:277-279 | the loop keeps exactly the features with AtoNs, in order |
| Atons.AtonsPage.constructor | niord-web/src/main/webapp/app/atons/atons-ctrl.js:25-58 | the initial filter state and the AtoN limit of 1000 |
| Atons.AtonsPage.RequestParametersShape | niord-web/src/main/webapp/app/atons/atons-ctrl.js:121-151 | the page's parameters never start with '&', always end with "maxAtonNo=…&emptyOnOverflow=true" for its limit, and are that alone with every filter off |
| Atons.AtonsPage.ToRequestFilterParameters | niord-web/src/main/webapp/app/atons/atons-ctrl.js:121-151 | the map, text, chart and area parts and the limit, without the leading '&' |
| Atons.AtonsPage.ClearFilter | niord-web/src/main/webapp/app/atons/atons-ctrl.js:95-109 | the named filter is disabled and its criterion reset; everything else is unchanged |
| Atons.AtonsPage.ClearAllFilters | niord-web/src/main/webapp/app/atons/atons-ctrl.js:113-117 | the text, chart and area filters are disabled and reset; the map filter is kept |
| Atons.AtonsPage.MoveFeatureUp | niord-web/src/main/webapp/app/atons/atons-ctrl.js:382-387 | the feature swaps with its predecessor when there is one; the filter fields and the limit (`Filters()`) are unchanged |
| Atons.AtonsPage.MoveFeatureDown | niord-web/src/main/webapp/app/atons/atons-ctrl.js:390-395 | the feature swaps with its successor when there is one; the filter fields and the limit (`Filters()`) are unchanged |
| Atons.AtonsPage.UpdateFeatureCollectionCoords | niord-web/src/main/webapp/app/atons/atons-ctrl.js:275-314 | the features become the coordinate update of the old ones; the filter fields and the limit (`Filters()`) are unchanged |
| Atons.AtonsPage.UpdateFeatureCollection | niord-web/src/main/webapp/app/atons/atons-ctrl.js:317-352 | the features are pruned, extended with the new selection and redrawn; the filter fields and the limit (`Filters()`) are unchanged |
| Atons.CoordsOf | niord-web/src/main/webapp/app/atons/atons-ctrl.js:293-311 | the coordinates each geometry type takes from its AtoNs; specified by RefreshedDrawn and ValidFeaturesAreGeoJson |
| Atons.MovedUp | niord-web/src/main/webapp/app/atons/atons-ctrl.js:382-387 | the features after `moveFeatureUp`; specified by MoveNoOps and MoveUpThenDown |
| Atons.MovedDown | niord-web/src/main/webapp/app/atons/atons-ctrl.js:390-395 | the features after `moveFeatureDown`; specified by MoveNoOps and MoveUpThenDown |
| Atons.SelectionUpdated | niord-web/src/main/webapp/app/atons/atons-ctrl.js:317-352 | the features after `updateFeatureCollection`; specified by SelectionUpdatedCoversSelection |
| Editor.UnusedFields | niord-web/src/main/webapp/app/editor/editor-ctrl.js:335-351 | enabled fields are removed; disabled fields keep their toggle, false when new; other toggles stay |
| Editor.UnusedStep | niord-web/src/main/webapp/app/editor/editor-ctrl.js:341-349 | one loop step removes an enabled field or adds a new disabled field as false |
| Editor.UnusedToggles | niord-web/src/main/webapp/app/editor/editor-ctrl.js:341-349 | the loop over the fields leaves the toggles the rule describes |
| Editor.DeleteFirstRemovesOne | niord-web/src/main/webapp/app/editor/editor-ctrl.js:396-401 | an absent element changes nothing; a present one loses exactly its first occurrence |
| Editor.ScaleLeqIsTotalPreorder | niord-web/src/main/webapp/app/editor/editor-ctrl.js:484-488 | the scale comparison is a total preorder |
| Editor.SortedCharts | niord-web/src/main/webapp/app/editor/editor-ctrl.js:482-490 | the charts are reordered, not changed, ascending by scale with a missing scale taken as 10000000 |
| Editor.UnscaledChartsLast | niord-web/src/main/webapp/app/editor/editor-ctrl.js:484-488 | a chart without a scale comes after every chart of a smaller scale |
| Editor.SubmittedFieldsValid | niord-web/src/main/webapp/app/editor/editor-ctrl.js:279-325 | a message that is submitted has every field valid |
| Editor.InvalidFieldRefusesSave | niord-web/src/main/webapp/app/editor/editor-ctrl.js:279-325 | the save is refused for the type iff the type field is invalid, for the series iff the series field is invalid |
| Editor.DeletableIffEditable | niord-web/src/main/webapp/app/editor/editor-ctrl.js:240-244 | a non-administrator may edit exactly the messages that may be deleted |
| Editor.MissingFieldsEmpty | niord-web/src/main/webapp/app/editor/editor-ctrl.js:898-917 | nothing is missing iff type, series, a subject and a title are all present |
| Editor.GuardsFollowLifecycle | niord-web/src/main/webapp/app/editor/editor-ctrl.js:921-1038 | verify needs draft, publish needs verified, both need the fields; delete needs draft or verified; cancel needs published |
| Editor.HappyPath | niord-web/src/main/webapp/app/editor/editor-ctrl.js:921-1038 | a complete draft can be verified, then published, then cancelled |
| Editor.Reverse | niord-web/src/main/webapp/app/editor/editor-ctrl.js:1076-1079 | the elements in reverse order |
| Editor.SelectedEntries | niord-web/src/main/webapp/app/editor/editor-ctrl.js:1076-1079 | exactly the selected history entries |
| Editor.EditorScope.SetEditorFields | niord-web/src/main/webapp/app/editor/editor-ctrl.js:335-351 | the fields are the given or the base ones; the toggles follow the rule, from nothing with reset |
| Editor.EditorScope.ShowFieldAfterReset | niord-web/src/main/webapp/app/editor/editor-ctrl.js:329-351 | after a reset a field is shown iff it is enabled |
| Editor.EditorScope.ToggleUseEditorField | niord-web/src/main/webapp/app/editor/editor-ctrl.js:355-357 | exactly one toggle flips |
| Editor.EditorScope.ToggleFlipsVisibility | niord-web/src/main/webapp/app/editor/editor-ctrl.js:329-357 | toggling flips only that field's visibility, and only when it is not enabled |
| Editor.EditorScope.SortCharts | niord-web/src/main/webapp/app/editor/editor-ctrl.js:482-490 | the message's charts become their sorted order; nothing else changes |
| Editor.EditorScope.DeleteReference | niord-web/src/main/webapp/app/editor/editor-ctrl.js:396-401 | the first occurrence is removed and the message marked dirty, only if present |
| Editor.EditorScope.DeleteDateInterval | niord-web/src/main/webapp/app/editor/editor-ctrl.js:417-422 | the same for a date interval; a message without intervals is unchanged |
| Editor.EditorScope.SaveMessage | niord-web/src/main/webapp/app/editor/editor-ctrl.js:276-312 | the outcome is the first failed check or a submission, and the saving flag is set only on submission |
| Editor.EditorScope.DescFieldDefined | niord-web/src/main/webapp/app/editor/editor-ctrl.js:882-891 | true iff some description has the field non-empty |
| Editor.EditorScope.CanPublish | niord-web/src/main/webapp/app/editor/editor-ctrl.js:898-917 | the list of missing fields, and success iff it is empty |
| Editor.EditorScope.Verify | niord-web/src/main/webapp/app/editor/editor-ctrl.js:921-941 | the guard's decision for verifying the message |
| Editor.EditorScope.Publish | niord-web/src/main/webapp/app/editor/editor-ctrl.js:945-967 | the guard's decision for publishing |
| Editor.EditorScope.Delete | niord-web/src/main/webapp/app/editor/editor-ctrl.js:971-986 | the guard's decision for deleting |
| Editor.EditorScope.Cancel | niord-web/src/main/webapp/app/editor/editor-ctrl.js:1005-1038 | the guard's decision for cancelling |
| Editor.EditorScope.UpdateSelection | niord-web/src/main/webapp/app/editor/editor-ctrl.js:1074-1081 | the selection is the selected history entries in reverse order |
| Editor.DeleteFirst | niord-web/src/main/webapp/app/editor/editor-ctrl.js:396-401 | the list without the first occurrence of an element; specified by DeleteFirstRemovesOne |
| Editor.ScaleKey | niord-web/src/main/webapp/app/editor/editor-ctrl.js:484-488 | a chart's scale, or 10000000 when missing or 0; specified by ScaleLeqIsTotalPreorder and UnscaledChartsLast |
| Editor.SaveCheck | niord-web/src/main/webapp/app/editor/editor-ctrl.js:279-312 | the first problem `saveMessage` reports; specified by SubmittedFieldsValid and InvalidFieldRefusesSave |
| Editor.FieldValid | niord-web/src/main/webapp/app/editor/editor-ctrl.js:316-325 | `fieldValid`; specified by SubmittedFieldsValid and InvalidFieldRefusesSave |
| Editor.Editable | niord-web/src/main/webapp/app/editor/editor-ctrl.js:240-244 | `editable`; specified by DeletableIffEditable |
| Editor.MissingFields | niord-web/src/main/webapp/app/editor/editor-ctrl.js:897-917 | the missing-field list of `canPublish`; specified by MissingFieldsEmpty |
| Editor.VerifyAction | niord-web/src/main/webapp/app/editor/editor-ctrl.js:921-941 | the outcome of `verify`; specified by GuardsFollowLifecycle and HappyPath |
| Editor.PublishAction | niord-web/src/main/webapp/app/editor/editor-ctrl.js:945-967 | the outcome of `publish`; specified by GuardsFollowLifecycle and HappyPath |
| Editor.DeleteAction | niord-web/src/main/webapp/app/editor/editor-ctrl.js:971-986 | the outcome of `delete`; specified by GuardsFollowLifecycle and DeletableIffEditable |
| Editor.CancelAction | niord-web/src/main/webapp/app/editor/editor-ctrl.js:1005-1038 | the outcome of `cancel`; specified by GuardsFollowLifecycle |
| TestRest.PutAllAppend | niord-web/src/main/java/org/niord/web/TestRestService.java:146-156 | putting two lists of areas is putting the first and then the second |
| TestRest.PutAllContents | niord-web/src/main/java/org/niord/web/TestRestService.java:149 | the lookup gains exactly the ids put, each mapping to an area with that id |
| TestRest.FlattenAllParents | niord-web/src/main/java/org/niord/web/TestRestService.java:146-156 | every area reached lies under the given parents, and each child's parent is the area containing it |
| TestRest.FlattenOneParents | niord-web/src/main/java/org/niord/web/TestRestService.java:148-154 | the same for one area and its subtree |
| TestRest.LookupHoldsForest | niord-web/src/main/java/org/niord/web/TestRestService.java:146-156 | after the update every area of the tree is in the lookup, and each stored child's parent contains it |
| TestRest.UpdateLookup | niord-web/src/main/java/org/niord/web/TestRestService.java:146-156 | the lookup with every area of the tree put in visiting order; a null list changes nothing |
| TestRest.PutForest | niord-web/src/main/java/org/niord/web/TestRestService.java:148-154 | the loop and the recursive calls put the whole forest |
| TestRest.ParentCopy | niord-web/src/main/java/org/niord/web/TestRestService.java:387-399 | the copy has the id, sort order and descriptions, and a parent iff the area has one |
| TestRest.ParentCopyLineage | niord-web/src/main/java/org/niord/web/TestRestService.java:387-399 | the copy's chain of parents has exactly the ids of the area's lineage |
| TestRest.GetDesc | niord-web/src/main/java/org/niord/web/TestRestService.java:369-374 | the first description in the language, or null iff there is none |
| TestRest.Matching | niord-web/src/main/java/org/niord/web/TestRestService.java:238-239 | exactly the areas whose name matches |
| TestRest.KeyLeqIsTotalPreorder | niord-web/src/main/java/org/niord/web/TestRestService.java:240 | the comparison of lower-cased names is a total preorder |
| TestRest.SearchOrder | niord-web/src/main/java/org/niord/web/TestRestService.java:237-240 | the matching areas, reordered only, sorted by lower-cased name |
| TestRest.SearchResult | niord-web/src/main/java/org/niord/web/TestRestService.java:234-244 | a successful search returns the first `limit` sorted matches as parent copies |
| TestRest.SearchCandidates | niord-web/src/main/java/org/niord/web/TestRestService.java:238-239 | a name matches iff the description in the language exists and contains it, ignoring case; an empty name matches all |
| TestRest.MatchAll | niord-web/src/main/java/org/niord/web/TestRestService.java:238 | an empty name keeps every area |
| TestRest.SearchFailures | niord-web/src/main/java/org/niord/web/TestRestService.java:234-244 | the search fails iff the limit is negative, or the sort meets a match without a description in the language |
| TestRest.WithIds | niord-web/src/main/java/org/niord/web/TestRestService.java:255-256 | exactly the areas whose id text is in the id set |
| TestRest.GetByIdResult | niord-web/src/main/java/org/niord/web/TestRestService.java:251-260 | fails iff the limit is negative; else at most `limit` copies, each with an id in the list |
| TestRest.SingleId | niord-web/src/main/java/org/niord/web/TestRestService.java:254-256 | a single id selects exactly the areas with that id |
| TestRest.FlattenAll | niord-web/src/main/java/org/niord/web/TestRestService.java:146-156 | every node of the forest with its ancestors, depth first; specified by FlattenAllParents and FlattenOneParents |
| TestRest.PutAll | niord-web/src/main/java/org/niord/web/TestRestService.java:149 | the lookup after putting each placed node; specified by PutAllAppend and PutAllContents |
| TestRest.Lineage | niord-web/src/main/java/org/niord/web/TestRestService.java:387-399 | the ids of a copy's parent chain; specified by ParentCopyLineage |
| TestRest.NameMatches | niord-web/src/main/java/org/niord/web/TestRestService.java:238-239 | the name filter of `searchAreas`; specified by Matching, MatchAll and SearchCandidates |
| TestRest.SortKey | niord-web/src/main/java/org/niord/web/TestRestService.java:240 | the lower-cased name the search sorts by; specified by KeyLeqIsTotalPreorder and SearchOrder |
| TestRest.Search | niord-web/src/main/java/org/niord/web/TestRestService.java:234-244 | `searchAreas` / `searchCategories`; specified by SearchResult and SearchFailures |
| TestRest.IdSet | niord-web/src/main/java/org/niord/web/TestRestService.java:254 | the ids of the comma-separated list; specified by GetByIdResult and SingleId |
| TestRest.GetById | niord-web/src/main/java/org/niord/web/TestRestService.java:251-260 | `getAreas` / `getCategories`; specified by GetByIdResult and SingleId |
| PublicationSearch.PartsCount | niord-core/src/main/java/org/niord/core/publication/PublicationSearchParams.java:49-55 | one non-empty part per criterion set, the domain counting twice |
| PublicationSearch.DescriptionEmpty | niord-core/src/main/java/org/niord/core/publication/PublicationSearchParams.java:47-58 | the description is empty iff no criterion is set |
| PublicationSearch.DomainTwice | niord-core/src/main/java/org/niord/core/publication/PublicationSearchParams.java:52-55 | a non-blank domain appears plain, and then quoted as the last part |
| PublicationSearch.BlankCriteriaOmitted | niord-core/src/main/java/org/niord/core/publication/PublicationSearchParams.java:51-55 | blank text criteria add nothing |
| PublicationSearch.SingleCriterion | niord-core/src/main/java/org/niord/core/publication/PublicationSearchParams.java:47-58 | only a message publication gives "MessagePublication: …" alone |
| PublicationSearch.PublicationSearchParams.ToString | niord-core/src/main/java/org/niord/core/publication/PublicationSearchParams.java:47-58 | the parts added in the fixed order, joined with ", " |
| PublicationSearch.PublicationSearchParams.Language | niord-core/src/main/java/org/niord/core/publication/PublicationSearchParams.java:69-72 | sets only the language and returns the same object |
| PublicationSearch.PublicationSearchParams.Title | niord-core/src/main/java/org/niord/core/publication/PublicationSearchParams.java:79-82 | sets only the title and returns the same object |
| PublicationSearch.PublicationSearchParams.Domain | niord-core/src/main/java/org/niord/core/publication/PublicationSearchParams.java:88-91 | sets only the domain and returns the same object |
| PublicationSearch.PublicationSearchParams.SearchType | niord-core/src/main/java/org/niord/core/publication/PublicationSearchParams.java:97-100 | sets only the type and returns the same object |
| PublicationSearch.PublicationSearchParams.MessagePublication | niord-core/src/main/java/org/niord/core/publication/PublicationSearchParams.java:106-109 | sets only the message publication and returns the same object |
| PublicationSearch.PublicationSearchParams.FileType | niord-core/src/main/java/org/niord/core/publication/PublicationSearchParams.java:115-118 | sets only the file type and returns the same object |
| PublicationSearch.Parts | niord-core/src/main/java/org/niord/core/publication/PublicationSearchParams.java:49-55 | the description parts in the order `toString` adds them; specified by PartsCount, DomainTwice, BlankCriteriaOmitted and SingleCriterion |
| PublicationSearch.Description | niord-core/src/main/java/org/niord/core/publication/PublicationSearchParams.java:47-58 | `toString`; specified by DescriptionEmpty and SingleCriterion, and computed by PublicationSearchParams.ToString |
| Sequences.FirstIndex | niord-web/src/main/webapp/app/common/common-service.js:151 | `keys.indexOf` here and `$.inArray` in the controllers (atons-ctrl.js line 383, editor-ctrl.js line 397): -1 iff absent, else the first index, with no earlier occurrence |
| Strings.IsBlank | niord-core/src/main/java/org/niord/core/publication/PublicationSearchParams.java:51 | `StringUtils.isBlank`: empty or only whitespace; used by BlankCriteriaOmitted |
| Strings.LowerChar | niord-web/src/main/java/org/niord/web/TestRestService.java:239 | `toLowerCase` on one character: an upper-case ASCII or Latin-1 letter moves to its lower case, anything else is kept, and the result is never upper case |
| Strings.ReplaceAll | niord-web/src/main/java/org/niord/web/ETagServletFilter.java:164 | `String.replace` of every occurrence, left to right; specified by ReplaceAbsent, TrimGzipSuffix and TrimIsSinglePass |
| Strings.JavaSplit | niord-web/src/main/java/org/niord/web/TestRestService.java:254 | `String.split` on one character: the pieces between the separators, with trailing empty pieces dropped |
| Strings.IndexOf | niord-core/src/main/java/org/niord/core/util/WebUtils.java:122 | `String.indexOf`: -1 iff the pattern is absent, else its first occurrence |
| Sorting.SortBy | niord-web/src/main/java/org/niord/web/TestRestService.java:240 | the stable sort of `sorted`: its result is ordered by the comparison and a permutation of the input |
| Sorting.LexLeq | niord-web/src/main/java/org/niord/web/TestRestService.java:240 | `compareTo(b) <= 0` on strings; specified by LexIsTotalPreorder |

## Left out

- Locking: the `@Lock` annotations, the concurrent cache map and the start-up pre-caching in `init` are left out, because one sequential caller is modelled.
- JPA persistence: queries, `saveEntity`, `remove` and `persist` become updates of the in-memory store.
- Classpath resource reading: each bundle resource is a given key/value map, and a missing resource is a missing map.
- Helpers that are not part of this model are given concrete definitions:
  - `Dictionary.toVo`, `DictionaryEntry.copyDescsAndRemoveBlanks`, `checkCreateDesc` and `DictionaryVo.value`/`toProperties` are modelled as plain map operations;
  - `descDefined` is "the value is not blank";
  - the data filter of `toVo` is ignored.
- Dictionaries.DictionaryService.LoadResourceBundle: models the corrected behaviour, which skips a missing resource; the behaviour as written is `Dictionaries.LoadedAsWritten` and `Dictionaries.AsWrittenStore` (see Findings).
- Dictionaries.DictionaryService.LoadDefaultResourceBundles: follows the same corrected skip, so its store is `LoadAll`; as written, the first missing resource stops the loading of every later bundle, which `Dictionaries.AsWrittenStore` gives.
- `getDictionariesAsResourceBundle` is left out, because it only wraps `getDictionariesAsProperties` in a `ResourceBundle` object.
- CommonService.OrderedMap.Put: assigning an object to `__proto__` replaces the prototype of `data`, which changes what the inherited names read; the model keeps `Object.prototype` and only records that no own property is made.
- CommonService.OrderedMap.Size: equals the number of stored entries only while the map is tidy. A null value can make `keys` hold a key twice, as `CommonService.NullValueDuplicatesKey` shows.
- `$translate`, `moment`, `numeral` and local storage in `changeLanguage` are left out, because they are UI libraries and the browser. Only the current and the stored language are modelled.
- Sequences.FirstIndex: JavaScript object identity in `$.inArray` and in the delete functions is modelled as value equality.
- WebUtils: `URLDecoder` is a parameter that may fail; encoding, cookies, caching headers and multipart handling are left out.
- ETag filter: header names are looked up as map keys in the spelling the filter uses; the container's case-insensitive matching of header names is not modelled.
- ETag filter: the file lookup, `etagForFile` and the modification time are replaced by an optional tag handed to `DoFilter`. Logging and `rc.next()` become the returned flag.
- SiteConfig: the JSON serialiser and the settings and domain services are outside the model. Each value arrives already serialised, or fails.
- BatchChartImport.Percent: the source computes the percentage in floating point; the model uses integer division. Both give the same value for any realistic chart count (below 2^46 charts); beyond that, the double quotient can round up to the next integer.
- The batch job's data file reading and logging are left out; a checkpoint is a non-negative integer.
- Atons:
  - `encodeURIComponent` is a parameter;
  - the extent is given as text;
  - a new feature's `valid` flag starts false instead of undefined, which the recomputation overwrites;
  - map rendering, AtoN search and the HTTP calls are left out.
- Editor:
  - server calls, dialogs, notifications, TinyMCE and the DOM are left out;
  - a failed save resetting `messageSaving` happens on the server reply, which is not modelled;
  - dates are timestamps, and a date is truthy when it is not 0;
  - `fieldValid('id')` tests `!== undefined`, modelled as "the series is present".
- Editor.SortedCharts: the in-place array sort is modelled on values, as a stable sort.
- TestRest:
  - loading the JSON files in `init` is left out;
  - areas and categories share one node type, so each lemma covers both twins;
  - a null `children` list is treated as an empty one.
- TestRest.ParentCopy: does not reorder the copied descriptions with `sortDescs(lang)`, because `ILocalizable` is not part of this model.
- TestRest.GetDesc: a description whose name is null is not modelled.
- Charts.SortKeyCaseInsensitive: lower-casing folds the ASCII and Latin-1 letters (A-Z, À-Þ, so Æ, Ø and Å); letters outside Latin-1 and the locale-specific rules of Java's `toLowerCase` are not folded.
- TestRest.Matching: the name match folds case for the ASCII and Latin-1 letters only, as in `Strings.LowerChar`.
- TestRest.SearchOrder: the names are lower-cased for the ASCII and Latin-1 letters only before they are compared.
- TestRest.SearchCandidates: its case-insensitivity covers the ASCII and Latin-1 letters only.
- Sorting.LexLeq: compares code points, while Java's `String.compareTo` compares UTF-16 code units; the two orders differ only for characters above U+FFFF.
- PublicationSearch: the `MessagePublication` and `PublicationFileType` enumerations are not part of this model; they are held as the text their `toString` gives.
- Extent, the route and servlet filters other than the ETag filter, the other REST services and the framework configuration are left out. They are floating-point geometry, I/O plumbing or thin wrappers around services that are not part of this model.

## Findings

| source | as written | input that shows it | evidently intended | confidence | as-written member | corrected member |
|---|---|---|---|---|---|---|
| niord-core/src/main/java/org/niord/core/dictionary/DictionaryService.java:331-333 | a missing resource gives a null stream; `new InputStreamReader(null, ...)` throws a NullPointerException that the `IOException` handler does not catch, so loading stops at the first missing bundle | bundles "web" and "message" in English and Danish, with "web_da.properties" and "message_da.properties" absent: "message_en" is never read, so the "message" dictionary is never created | a missing or unreadable bundle is logged and skipped, and the other bundles load | not executed | Dictionaries.MissingBundleLosesDictionary | Dictionaries.LoadAllLoadsEveryAvailable |
