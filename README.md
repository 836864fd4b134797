# Crafting data scraper, modelled in Dafny

This project models the logic of a scraper that builds crafting databases for
Final Fantasy XIV. The scraper reads recipe and item pages from the Lodestone
database in four languages (en, ja, fr, de). It writes one sorted JSON list
per crafting class and per item category. Older scripts do the same for
buffs (food and medicine) through the XIVDB JSON API. A separate script
merges additional-language names into the written lists.

The model covers:

- **The response cache** (`ResponseCache`). The cache key is SHA-1 over the
  URL followed by `name=value;` for every keyword argument in sorted name
  order. Lookup has a 12-hour expiry and deletes a stale file. Store writes
  the file.
- **The fetch loop** (`Fetcher`). A 429 response with a readable
  `Retry-After` header sleeps for that delay and does not count as a
  failure. A 429 whose header is missing or is not a number counts, as
  does every other failure. The fifth failure aborts the run. A success is cached.
- **The paginated walks** (`Pagination`). The Lodestone listings continue
  while `show_end < total`. The XIVDB searches continue while
  `page < total`.
- **Recipe levels** (`Levels`). These cover the `LEVEL_DIFF` table, the
  abort on an unsupported star count, the -5 and +10 corrections, and the
  `LEVEL_RANGES` and `RECIPE_LINK_CATEGORIES` constants.
- **The recipe record** (`Recipes`, `Locales`). This covers the embed-id
  pattern, the characteristic lines (the last match wins), the optional keys
  that are set only when their value is truthy, and the names in every
  language.
- **The item records** (`Items`). The three `finditer` bonus patterns are
  read from the NQ and HQ effect texts. An item with no bonus is dropped.
  Any other item becomes an NQ record and an HQ record.
- **The XIVDB buff scripts** (`Xivdb`). This covers the attribute-id mapping
  70/71/11, requests retried until their JSON parses, the food script's
  single-attempt search page, and the descending sort. A search entry
  without `url_api` raises `KeyError` only when the URLs are added to the
  list, outside the retry loop, so it ends the walk.
- **The additional-language merge** (`Languages`). This covers the
  `lang=path` arguments, the loaded mappings, and
  `name[lang] = mapping.get(name["en"]) or name["en"]` applied in place.
- **Final assembly** (`Assembly`). Results are collected in completion order,
  sorted, and then merged.

Everything outside the program's own logic is a parameter:

- the server's answers (a list of responses per request, or a page oracle);
- the clock;
- SHA-1 (an uninterpreted function);
- the cache directory (a map from file name to modification time and text);
- the language files (already-parsed mappings);
- the order in which concurrent tasks finish.

Each page is the set of strings that the XPath queries select from it.

Behaviour worth noting, which the model follows as written:

- **Cache key.** The key ignores the order of the top-level keyword
  arguments only. A nested `params` dict is hashed as `str(params)`, which
  follows its insertion order (main.py:128-131). `Kwarg.rendered` is that
  string.
- **Optional recipe keys.** The keys are written only when truthy, so zero
  stars and a suggested value of 0 are omitted (main.py:317-327).
- **Retry bound.** Fetching is not bounded by five attempts. A server that
  keeps answering 429 is waited on forever, and the XIVDB retry loops have
  no limit at all.
- **Name override.** With no translation available, the override writes the
  English name. It does not keep the scraped name. This also adds a key for
  every loaded language, including languages outside the four hosts. The
  merge is idempotent and independent of the language order only when "en"
  is not itself a loaded language. With "en" loaded, the English name is
  rewritten in place and later languages read the rewritten value.

## Model

| member | source | states |
|---|---|---|
| Text.LStripSpec | main.py:295 | `lstrip` keeps the longest suffix not starting with whitespace and removes only whitespace |
| Text.RStripSpec | main.py:295 | `rstrip` keeps the longest prefix not ending with whitespace and removes only whitespace |
| Text.StripSpec | main.py:295 | `strip()` yields a slice with only whitespace outside it and no whitespace at either end |
| Text.StripNoop | main.py:295 | a string with no whitespace at either end is left unchanged by `strip()` |
| Text.DigitRun | main.py:93-97 | a greedy `[0-9]+` consumes a digit run, and the next character is not a digit |
| Text.DigitRunOf | main.py:93-97 | digits followed by a non-digit are consumed exactly |
| Text.Render | main.py:85 | `str(n)` is a non-empty digit string with no leading zero whose decimal value is `n` |
| Text.ParseIntRender | main.py:171 | `int(str(n)) == n` |
| Text.ParseIntRenderNegative | main.py:277 | `int("-" + str(n)) == -n` |
| Text.ParseIntAccepted | main.py:263-279 | `int()` accepts only text holding a digit, and yields a negative number only from text holding a minus sign |
| Text.StrLessIrreflexive | main.py:127 | Python's string `<` is irreflexive |
| Text.StrLessAsymmetric | main.py:127 | Python's string `<` is asymmetric |
| Text.StrLessTransitive | main.py:127 | Python's string `<` is transitive |
| Text.StrLessTotal | main.py:127 | any two different strings are ordered one way or the other |
| Seqs.LastMatchSpec | main.py:294-305 | a scan where later matches overwrite earlier ones yields `v` iff some entry gives `v` and no later entry matches |
| Seqs.LastMatchNone | main.py:294-305 | the scan yields nothing iff no entry matches |
| Seqs.FlattenAppend | main.py:227-229 | extending by lists in turn is associative over the split point |
| Seqs.FlattenPermutation | main.py:118-120 | collecting lists in another order collects the same multiset of elements |
| Seqs.MapPermutation | main.py:349-354 | applying the same per-record step to two permutations of a list gives permutations of each other |
| Seqs.Restrict | main.py:329-331 | a map limited to a list of keys has exactly those keys, with the original values |
| Ordering.KeyLessIrreflexive | main.py:349 | tuple comparison `(int, str, bool)` is irreflexive |
| Ordering.KeyLessAsymmetric | main.py:349 | tuple comparison is asymmetric |
| Ordering.KeyLessTransitive | main.py:349 | tuple comparison is transitive |
| Ordering.KeyLessTotal | main.py:349 | different tuples are ordered one way or the other |
| Ordering.SortBy | main.py:349 | `list.sort(key=..., reverse=...)` yields a permutation of the list |
| Ordering.SortBySorted | main.py:349 | after `list.sort` no element is placed after one it must precede |
| Ordering.SortedUnique | main.py:349 | when the key tells elements apart, a multiset has exactly one sorted order |
| Levels.ComputeLevel | main.py:264-288 | aborts iff the base level has a row too short for the star count; outside the table the level is the base level with no stars |
| Levels.LevelNotBelowBase | main.py:264-288 | every non-aborting level is at least the base level |
| Levels.ComputeLevelMatchesDocumented | main.py:48-82 | inside the table, the level equals the documented level, or differs by -5 or +10 in the corrected cases |
| Levels.TableMatchesDocumented | main.py:48-82 | every row of `LEVEL_DIFF` reproduces the effective levels written beside it |
| Levels.StarsRaiseLevel | main.py:48-82 | within a row, more stars mean a higher level |
| Levels.WorkedExamples | main.py:50-81 | 50 at 2★ gives 70; 80 at 4★ gives 510; 51 at difficulty 169 gives 115; 60 at 3★ with difficulty 1764 gives 220; too many stars abort |
| Levels.Range | main.py:85 | `range(start, stop, step)` lists `start + step*i` for every i whose value is below `stop`, and nothing more |
| Levels.LevelRangesShape | main.py:84-86 | 16 brackets from "1-5" to "76-80" |
| Levels.RecipeLinkCategoriesShape | main.py:86-89 | 23 categories: "0" to "15", then "c1" to "c7" |
| Levels.RangeStartsTileLevels | main.py:84-85 | the five-level brackets cover 1..80 with no gap and no overlap |
| Levels.RenderDistinct | main.py:88 | different bracket numbers render differently |
| Levels.RecipeLinkCategoriesDistinct | main.py:88-89 | no listing category is paginated twice |
| Locales.LangsAreHosts | main.py:29-34 | the language list is exactly the keys of `LANG_HOSTS`, without repeats |
| Locales.LangUrl | main.py:234-235 | the URL is the language's host followed by the link as an absolute path: a "/" is inserted only before a link that lacks one |
| Locales.LangUrlsDistinct | main.py:238-242 | different languages request different URLs |
| Locales.MatchDbId | main.py:247-252 | an id is read only as a non-empty lower-case hex string |
| Locales.MatchDbIdRoundTrip | main.py:91 | the id written into `[db:kind=id]...` is the id read back |
| Locales.MatchDbIdShape | main.py:91 | an id is read only from a code of the form `[db:kind=id]...` |
| Locales.NamesOf | main.py:329-331 | names have exactly the listed languages, each the stripped heading of its own page |
| Locales.CollectNames | main.py:329-331 | the loop over `LANG_HOSTS` builds the name map of every language |
| Locales.NamesInEveryLanguage | main.py:329-331 | a record is named in every language of `LANG_HOSTS` by its own page |
| ResponseCache.CacheKey | main.py:123-133 | the key is SHA-1 of the URL followed by `name=value;` for each kwarg in sorted name order |
| ResponseCache.PreimageIgnoresKwargOrder | main.py:126-131 | the same kwargs written in any order give the same key |
| ResponseCache.PreimageWithoutKwargs | main.py:123-125 | without kwargs the key hashes the URL alone |
| ResponseCache.LookupFile | main.py:136-148 | a hit iff the file exists and is not older than 12 hours, with the stored text; a miss leaves no file; no other file changes |
| ResponseCache.StoredTextServedUntilExpiry | main.py:142 | a file written at `t` is served at any time up to `t` + 12 hours inclusive |
| ResponseCache.ExpiredFileDeleted | main.py:141-144 | an expired file is deleted on lookup, so every later lookup misses |
| ResponseCache.Cache.Lookup | main.py:136-148 | get_cached_text's result and the cache directory it leaves behind |
| ResponseCache.Cache.Store | main.py:151-155 | cache_text writes the text under the request's key, timestamped now |
| Fetcher.ClassifyThrottled | main.py:170-173 | a 429 sleeps for the delay in its `Retry-After` header |
| Fetcher.ClassifyRetryAfterEdgeCases | main.py:171 | an empty header means 5 seconds; a missing or unparsable header is a failure |
| Fetcher.ClassifyOtherStatuses | main.py:174-178 | only a 200 whose body decodes succeeds; other statuses and exceptions fail |
| Fetcher.Classify | main.py:169-178 | succeeds iff the response is a 200 with a decodable body, whose text it returns; a sleep only for a 429 with a `Retry-After` header |
| Fetcher.Run | main.py:164-186 | consumes no more responses than given; stops only when they run out, on a success (the last response consumed) or on the fifth failure; one sleep per consumed response that did not succeed |
| Fetcher.RetryLoop | main.py:164-186 | the loop's outcome, the responses it consumes and its sleeps |
| Fetcher.RunFetchesAt | main.py:164-178 | the first success reached before the fifth failure is returned, after sleeping through everything earlier |
| Fetcher.RunExhaustsAt | main.py:164-186 | the fifth failure with no earlier success aborts, whatever the server would answer next |
| Fetcher.RunPending | main.py:164-184 | with no success and fewer than five failures the loop keeps going |
| Fetcher.ThrottlingNeverExhausts | main.py:170-173 | 429 answers never use up the failure budget |
| Fetcher.FifthFailureIsFinal | main.py:165 | four failures and then a success fetch; five failures abort before the success |
| Fetcher.RefetchServedFromCache | main.py:158-178 | a fetched page is served from the cache, with no request, for the next 12 hours |
| Fetcher.FailedFetchStoresNothing | main.py:176-186 | a miss that ends without a page leaves no file |
| Fetcher.Fetch | main.py:158-186 | fetch's outcome and cache directory, given the cache, the clock and the responses |
| Pagination.Walk | main.py:207-217 | pages 1, 2, … are requested in order; page k+1 only if page k asked for more; links concatenated in page order |
| Pagination.WalkResultUnique | main.py:207-217 | the walk's outcome is determined by the pages the server returns |
| Pagination.PageCountWalkReadsTotal | buffs.py:54-64 | with a page count N, exactly max(1, N) pages are read |
| Pagination.ShowEndWalkReadsUntilLastItem | main.py:374-384 | reading stops at the first page that shows the last item |
| Recipes.MatchAspect | main.py:92 | a matched aspect is non-empty and within one line |
| Recipes.MatchAspectRoundTrip | main.py:92 | `Aspect: x` gives back `x` |
| Recipes.MatchSuggestedRoundTrip | main.py:93-94 | `<stat> Required: n` and `<stat> Recommended: n` give back `n` |
| Recipes.ScanCharacteristics | main.py:294-305 | each characteristic is the value from the last matching line |
| Recipes.Assemble | main.py:258-331 | a record has the id, base level and craft data as read, the names given, the level from the table and corrections, and each optional key present iff its value is truthy |
| Recipes.ReadAspect | main.py:294-299 | the aspect is set iff some stripped line matches |
| Recipes.FetchRecipe | main.py:255-333 | fetch_recipe's record or error on the pages of one recipe |
| Recipes.AssembleErrors | main.py:258-279 | the recipe fails iff a field does not parse or the stars are unsupported; the error names the first failure in source order: embed id, level, stars, Difficulty, Durability, Maximum Quality |
| Recipes.RecipeLevelNotBelowBase | main.py:264-288 | a recipe's level is at least its base level |
| Recipes.UnsupportedStarsAborts | main.py:266-272 | base level 50 with five stars aborts before the craft data is read |
| Items.MatchBonusAt | main.py:95-97 | a pattern match spans a non-empty part of the text |
| Items.FindAll | main.py:404 | `finditer` finds at most one match per character of the text |
| Items.FindAllSound | main.py:404 | every bonus found is read by a match of the pattern at some position of the text |
| Items.FindAllEmpty | main.py:404 | `finditer` finds nothing iff the pattern matches at no position |
| Items.MatchBonusRoundTrip | main.py:95-97 | `<stat> +p% (Max v)` reads back `(p, v)` |
| Items.FindAllAfterBonus | main.py:404-407 | a bonus at the start is found, and the scan resumes after it |
| Items.FindAllOfTwo | main.py:404-407 | two bonuses of one stat are both found, in text order |
| Items.ExtractItemAttr | main.py:401-419 | returns true iff some pattern matched; each stat gets its last match; other fields are unchanged |
| Items.LaterBonusWins | main.py:409-412 | of two control bonuses the later is kept, and other stats stay unset |
| Items.FetchItem | main.py:422-455 | fetch_item's records on the pages of one item |
| Items.ItemRecords | main.py:441-455 | no record iff neither text matches anywhere; otherwise NQ then HQ with the same id and names in every language |
| Xivdb.MappedSpec | buffs.py:93-108 | a record has a stat's pair iff an entry with that id occurs, and the pair is from the last such entry, NQ or HQ fields as appropriate |
| Xivdb.Mapped | buffs.py:93-108 | a record whose attributes have none of the ids 70, 71 and 11 has no bonus |
| Xivdb.OtherIdsIgnored | buffs.py:93-108 | entries with ids other than 70, 71 and 11 change nothing |
| Xivdb.FetchItem | buffs.py:78-110 | exactly two records, NQ then HQ, sharing name and ilvl, each with its mapped bonuses |
| Xivdb.Retried | buffs.py:42-52 | retrying continues iff no attempt has parsed; otherwise the result is the first attempt that parsed |
| Xivdb.UrlsRead | buffs.py:27-31 | reading a page's URLs fails iff some entry lacks `url_api`; otherwise one URL per entry, in order, and the page's total |
| Xivdb.NoRetryLimit | buffs.py:42-52 | any number of failures is followed by the first success |
| Xivdb.RetryUntilParsed | buffs.py:66-76 | the `while True` retry loop's result |
| Xivdb.RetriedPages | buffs.py:42-64 | the retried walk sees page k+1 only once some attempt at it parsed, and sees that attempt's URLs, or the failure to read them |
| Xivdb.RetriedWalkAborts | buffs.py:29-59 | the retried walk ends in an exception iff the last page it parsed has an entry without `url_api`: the lazy `map` raises at `urls += page_urls`, outside the retry loop |
| Xivdb.SingleAttemptFailureAborts | food.py:37-51 | a single failed attempt on page k+1, after earlier pages that read and asked for more, ends the food walk there with an exception |
| Xivdb.AllBuffsSorted | buffs.py:125-137 | the output is exactly the fetched records, in descending (ilvl, name, hq) order |
| Xivdb.HqBeforeNq | buffs.py:137 | for equal ilvl and name, HQ precedes NQ |
| Xivdb.AllBuffsIgnoreArrivalOrder | buffs.py:119-137 | with distinct keys, the output does not depend on completion order |
| Languages.SplitArgument | add_other_lang.py:20 | `split("=", 2)` unpacks into two parts iff the argument has exactly one "=", and then splits around it |
| Languages.LoadLanguages | add_other_lang.py:18-23 | the loading loop's dict or first error |
| Languages.Loaded | add_other_lang.py:18-23 | each argument adds at most one language; a bad-argument error names one of the arguments |
| Languages.LoadedOkIff | add_other_lang.py:19-23 | loading succeeds iff every argument unpacks and names a file that opens |
| Languages.LoadedFirstFailure | add_other_lang.py:19-23 | the first failing argument decides the error |
| Languages.AddLanguageSpec | add_other_lang.py:23 | assigning a key adds it last if new and keeps its place if present |
| Languages.LoadedLanguages | add_other_lang.py:18-23 | the dict holds exactly the named languages, each once |
| Languages.LaterFileWins | add_other_lang.py:23 | a language holds the file of the last argument naming it |
| Languages.FirstPlaceKept | add_other_lang.py:23 | the order after any prefix of the arguments is a prefix of the final order |
| Languages.OverriddenKeysAt | add_other_lang.py:27-31 | after k languages the name has exactly the record's keys plus those k languages |
| Languages.Overridden | add_other_lang.py:27-31 | the English key is present after every step, so each `name["en"]` lookup succeeds |
| Languages.OverrideName | add_other_lang.py:28-31 | the inner loop over the loaded languages computes the merged name |
| Languages.OverriddenKeepsOthers | add_other_lang.py:27-31 | keys that are not loaded languages keep their presence and value |
| Languages.OverriddenClosedForm | add_other_lang.py:27-31 | without "en" loaded, each language gets its mapping of the English name if non-empty, else the English name |
| Languages.OverriddenKeys | add_other_lang.py:27-31 | the merged name's keys are the record's keys plus every loaded language |
| Languages.OverriddenValue | add_other_lang.py:27-31 | without "en" loaded, each merged value depends only on its key, the mappings and the English name |
| Languages.OverrideIdempotent | add_other_lang.py:27-31 | without "en" loaded, merging twice equals merging once |
| Languages.OverrideOrderIndependent | add_other_lang.py:27-31 | without "en" loaded, the language order does not matter |
| Languages.EnglishLoadedChains | add_other_lang.py:30-31 | with "en" loaded and mapping A→B, B→C, the name becomes B, then C: not idempotent |
| Languages.OverrideRecords | add_other_lang.py:25-33 | every record's name is merged; the list keeps its length and order and each record its other keys |
| Assembly.CollectAll | main.py:227-229 | `links.extend(r)` over the results concatenates them in arrival order |
| Assembly.FetchClass | main.py:346-355 | sorting then merging names gives the class output |
| Assembly.FetchItemsCategory | main.py:468-477 | collecting, sorting and merging gives the category output |
| Assembly.EnglishNameKept | main.py:352-354 | without "en" loaded the English name, and so the sort key, is unchanged |
| Assembly.ClassOutputSpec | main.py:349-354 | the output is a permutation of the fetched recipes with their names merged; without "en" loaded, ordered by (level, English name) |
| Assembly.ClassOutputIgnoresArrivalOrder | main.py:346-349 | with distinct (level, English name), the output does not depend on completion order |
| Assembly.CategoryOutputSpec | main.py:465-476 | the output is a permutation of the collected items with their names merged; without "en" loaded, ordered by English name |

## Left out

- Network, HTML parsing and XPath. Pages are the strings the queries select,
  and responses are given as lists. An `IndexError` from a missing node is
  not modelled.
- The filesystem: `.cache/` files, `out/*.json` and `json.dump` formatting,
  and the class loop of add_other_lang.py that reads and writes each file
  (add_other_lang.py:24-26, add_other_lang.py:32-33). JSON parsing of the
  language files is not modelled either: the files are given already parsed.
- Concurrency: the semaphore, `asyncio.as_completed`, tqdm and the event
  loop. Completion order is a parameter, and sleeps are recorded as delays.
- SHA-1 and UTF-8 encoding. The hash is an uninterpreted function of the
  preimage string.
- Process setup: argparse, signal handling and logging output.
- recipe_list.py is not part of this model. Its only logic is the
  `show_end < total` walk, which `Pagination.Walk` covers.
- food.py's attribute mapping, pagination and sort (food.py:41-51,
  food.py:65-97, food.py:124) are the same code as buffs.py. The
  `Xivdb` members model both. Only food.py's single-attempt search page
  differs. It is modelled by `Xivdb.FirstAttempts`, which feeds the walk
  each page's first attempt only.
- Unbounded loops (the 429 retries, the XIVDB retries, the page walks) are
  run over a finite list of server answers. When the answers run out the
  result is "still going" (`Pending`, `StillRetrying`, `Unfinished`).
- Text.ParseInt: accepts ASCII digits only. Python's `int()` also accepts
  other Unicode digits, which the pages do not contain.
- Xivdb.FetchItem: the item data always has every field it reads. In the
  source, `data["name_en"]`, `data["level_item"]`,
  `data["attributes_params"]` and each attribute's `id`, `value`,
  `percent`, `value_hq` and `percent_hq` are read after `fetch_page` has
  returned, outside its retry loop (buffs.py:81-106, and the same code in
  food.py). A response missing any of them raises `KeyError` and ends the
  run. The model has no such error path.
- Ordering.SortBy: its contract states a permutation and sortedness, not
  stability. Stability matters only for ties.
- ResponseCache.Cache.Store, ResponseCache.Cache.Lookup: neither can fail.
  In the source, `cache_text` runs inside the fetch loop's `try`
  (main.py:167-183), so a write error counts as a failed attempt and the
  page is requested again. An error other than `FileNotFoundError` in
  `get_cached_text` (main.py:136-148) escapes fetch.
- ResponseCache.StoredTextServedUntilExpiry: times are exact reals. The
  source compares floating-point timestamps (main.py:142), so its rounding
  at the 12-hour boundary is not modelled.
- Assembly.CategoryOutputSpec: does not fix the relative order of records
  with the same English name. In the source the NQ record of an item always
  precedes its HQ record: fetch_item returns them in that order
  (main.py:455), they are flattened in that order (main.py:465), and the
  sort is stable (main.py:471). The model does not prove this, because
  `Ordering.SortBy` does not state stability. Completion order decides only
  the relative order of different items that share an English name.
- Items.FetchItem: the name loop of fetch_item is computed once and shared
  by the NQ and HQ records. The source assigns the same value to both.
- Assembly.FetchClass: the in-place `list.sort` and in-place name
  assignment are modelled on values. The method returns the new list
  rather than mutating a shared one.
- Assembly.FetchClass, Assembly.FetchItemsCategory: require every record
  to have an "en" name. The source raises `KeyError` otherwise, and
  `Locales.NamesInEveryLanguage` shows that fetched records always have
  one.
