# Translation management service — a Dafny model

This project models the core of a Laravel translation-management API:
translations (a key, a value, a language and a set of tags) are listed
through a filtered, paginated search, created, updated and soft-deleted
through a REST controller guarded by form-request validation, and exported
as a JSON document `language code -> key -> value` that is served from a
cache and invalidated on every mutation. A bulk seeder fills the table with
100000 translations whose keys are made unique per language.

Modules (one per core component):

- `Text` (`common.dfy`): decimal spelling of ids, `implode`/`explode` on a
  separator, sorting of id lists, PHP's notion of a blank string.
- `Schema` (`schema.dfy`): languages, translations (with their tag set and
  soft-delete flag), the store, and the invariants the migrations enforce
  (foreign keys, existing tags, distinct ids, unique `(key, language_id)`
  over all rows, soft-deleted ones included).
- `TranslationCache` (`cache.dfy`): `TranslationCacheService` as a class
  over the cache entries and the key registry; the cache key, its decoding,
  the database fetch and the fold into the export document.
- `TranslationSearch` (`search.dfy`): the query builder as a class collecting
  conditions, the four filters, SQL `LIKE`, and `paginate`.
- `Requests` (`requests.dfy`): `TranslationRequest` and `LanguageRequest`
  rules as the set of fields a payload fails on.
- `TranslationControllers` (`controller.dfy`): `TranslationController` as a
  class over the store and the cache service.
- `TranslationsSeeding` (`seeder.dfy`): `TranslationsTableSeeder::run`, with
  the random choices, the clock-free database and insert failures as
  parameters.

Modelling conventions:

- A request parameter is a string (`Params = map<string, string>`); SQL
  compares an id column with it when the string spells that id.
- `filled` and `required` mean present and not blank after PHP `trim`.
- Route-model binding only finds rows that are not soft-deleted, so an
  unknown or deleted id answers `NotFound` before validation runs; a
  payload that fails validation answers `ValidationFailed` with the failing
  fields and changes nothing (the cache is not cleared).
- `hasFullTextIndex` always answers false, so the full-text branch of the
  content filter is unreachable; it stays in the model as a branch proved
  dead. Likewise the `str_ends_with` branch of the key filter can only be
  reached when the key holds no `%`, where it cannot fire.
- Rows are listed and folded in store (insertion) order.

Further modelling decisions, each read off the code:

- the search's language parameter is named `language`; its value is
  compared with the `language_id` column (`TranslationSearchService.php`,
  line 46);
- the unique rule on `(key, language_id)` is a plain `Rule::unique` on the
  table, so soft-deleted rows count and a key freed by a delete cannot be
  reused (`TranslationRequest.php`, lines 23-27);
- the key filter has no prefix-match path of its own: without `%` it is
  equality, with `%` a `LIKE` with the key as the whole pattern, because
  the `str_ends_with` test sits inside the branch where the key holds no
  `%` (`TranslationSearchService.php`, lines 68-76);
- an absent or zero `per_page` or `page` falls back to 15 and 1, and no
  validation error is raised for page parameters;
- the seeder's `NoLanguages` outcome stands for the uncaught exception
  `$languages->random()` throws on an empty language collection after the
  start message is printed (`TranslationsTableSeeder.php`, line 31); the
  model writes nothing in that case, as the source does.

## Model

| member | source | states |
|---|---|---|
| Text.NatToString | app/Services/TranslationCacheService.php:65 | an id is written as a non-empty run of decimal digits |
| Text.DigitsValueOfNatToString | app/Services/TranslationCacheService.php:65 | reading an id's decimal spelling back gives the id |
| Text.NatToStringInjective | app/Services/TranslationCacheService.php:65 | two ids have the same spelling if and only if they are equal |
| Text.Join | app/Services/TranslationCacheService.php:65 | `implode`: the parts with the separator between consecutive ones |
| Text.SplitJoin | app/Services/TranslationCacheService.php:65 | splitting an `implode` on the separator recovers the parts when no part contains the separator |
| Text.Sort | app/Services/TranslationCacheService.php:64 | `sort` returns a sorted permutation of the ids |
| Text.SortedUnique | app/Services/TranslationCacheService.php:64 | two sorted lists with the same elements and multiplicities are equal |
| Text.SortPermutation | app/Services/TranslationCacheService.php:64-70 | two id lists sort to the same list if and only if one is a permutation of the other |
| Text.IsBlank | app/Http/Requests/TranslationRequest.php:22 | what `required` and `filled` reject: a string that is empty after PHP `trim` |
| Requests.Required | app/Http/Requests/TranslationRequest.php:22 | Laravel's `required`: the field is present and not blank |
| Schema.FindLive | app/Models/Translation.php:14 | route binding finds the position of the non-deleted row with the id, or reports that every row with that id is soft-deleted or absent |
| Schema.ForeignKeys | database/migrations/2024_03_20_000004_create_translations_table.php:15-17 | every translation row's language exists |
| Schema.Consistent | database/migrations/2024_03_20_000004_create_translations_table.php:12-22 | the schema's invariants over all rows, soft-deleted ones included: foreign keys, existing tags, distinct ids below the next id, and at most one row per (key, language) |
| TranslationCache.DecodeCacheKey | app/Services/TranslationCacheService.php:59-71 | the cache key determines the filter: it decodes to the sorted language ids and the sorted tag ids |
| TranslationCache.CacheKey | app/Services/TranslationCacheService.php:61-71 | the key of a filter: `translations`, then `_lang_` and the sorted language ids joined with `_` when there are any, then `_tag_` and the sorted tag ids when there are any |
| TranslationCache.RegistryKeyIsNoCacheKey | app/Services/TranslationCacheService.php:74-77 | the registry's cache entry `translation_cache_keys` is never the key of an export |
| TranslationCache.CacheKeyIdentifiesFilter | app/Services/TranslationCacheService.php:59-71 | over natural ids, two filters share a cache key if and only if their language lists and tag lists are equal as multisets (order-independent, duplicates significant) |
| TranslationCache.DuplicatesNotCollapsed | app/Services/TranslationCacheService.php:64-65 | `[1, 1]` and `[1]` give different keys |
| TranslationCache.CacheKeyShape | app/Services/TranslationCacheService.php:61-71 | the key is `translations` exactly when both lists are empty; the `_lang_` segment (sorted ids) precedes the `_tag_` segment, each present only for a non-empty list |
| TranslationCache.SelectRows | app/Services/TranslationCacheService.php:88-100 | the query returns exactly the non-deleted rows whose language is in a non-empty language list and which carry a tag of a non-empty tag list |
| TranslationCache.Selected | app/Services/TranslationCacheService.php:88-98 | the query's row filter: not soft-deleted, language in a non-empty language list, some tag in a non-empty tag list |
| TranslationCache.Put | app/Services/TranslationCacheService.php:106-109 | writing one translation into the document under its language code and key, creating the code's entry when missing |
| TranslationCache.Fold | app/Services/TranslationCacheService.php:103-110 | the document built from the rows in order |
| TranslationCache.LastValue | app/Services/TranslationCacheService.php:104-109 | the value of the last row with a language code and key, if any |
| TranslationCache.FoldLastWriteWins | app/Services/TranslationCacheService.php:103-110 | in the export document every (language code, key) holds the value of the last row with that code and key, and absent pairs have no row |
| TranslationCache.FoldCodes | app/Services/TranslationCacheService.php:103-110 | a language code is in the document exactly when some selected row has a language with that code |
| TranslationCache.FetchTranslationsFromDatabase | app/Services/TranslationCacheService.php:86-113 | the loop over the query results builds exactly the folded document of the selected rows |
| TranslationCache.Fetched | app/Services/TranslationCacheService.php:86-113 | the document the store yields for a filter: the fold of the selected rows |
| TranslationCache.FetchedLookup | app/Services/TranslationCacheService.php:86-113 | what the fetched document maps (code, key) to is the last selected row's value for that code and key |
| TranslationCache.TranslationCacheService.constructor | app/Services/TranslationCacheService.php:9-14 | a fresh cache has no entries and no key registry |
| TranslationCache.TranslationCacheService.GenerateCacheKey | app/Services/TranslationCacheService.php:59-81 | returns the key of the filter and registers it: the registry gains the key when it was missing and is untouched otherwise, and stays free of duplicates |
| TranslationCache.TranslationCacheService.Covered | app/Services/TranslationCacheService.php:25-34 | every cached export sits under a registered key, because a key is registered before its entry is put |
| TranslationCache.TranslationCacheService.GetTranslations | app/Services/TranslationCacheService.php:23-37 | on a hit returns the cached document and leaves the entries alone; on a miss returns the store's document and caches it under the key; the key is registered and every cached entry stays registered |
| TranslationCache.TranslationCacheService.ClearTranslationCache | app/Services/TranslationCacheService.php:42-54 | removes every registered key's entry and the registry; when every entry was registered, no entry is left |
| TranslationCache.RepeatedLookupIsStable | app/Services/TranslationCacheService.php:23-37 | two lookups with permuted filters and no invalidation between them return the same document |
| TranslationCache.LookupAfterClearReadsStore | app/Services/TranslationCacheService.php:42-54 | after invalidation the next lookup of any filter returns what the store holds |
| TranslationSearch.LikeLiteral | app/Services/TranslationSearchService.php:75 | a pattern without wildcards matches exactly the equal string |
| TranslationSearch.LikeAny | app/Services/TranslationSearchService.php:69 | `%` alone matches every key |
| TranslationSearch.LikePrefix | app/Services/TranslationSearchService.php:69 | `v%` with a wildcard-free `v` matches exactly the strings starting with `v` |
| TranslationSearch.LikeContains | app/Services/TranslationSearchService.php:90 | `%v%` with a wildcard-free `v` matches exactly the strings containing `v` |
| TranslationSearch.Filled | app/Services/TranslationSearchService.php:45 | `filled`: the parameter is present and not blank |
| TranslationSearch.IdMatches | app/Services/TranslationSearchService.php:46 | `where('language_id', $request->input('language'))`: the parameter spells the row's id in decimal |
| TranslationSearch.Like | app/Services/TranslationSearchService.php:69 | SQL `LIKE`: `%` matches any run of characters, `_` any one character, anything else itself |
| TranslationSearch.Satisfies | app/Services/TranslationSearchService.php:43-93 | what each condition the filters add demands of a row |
| TranslationSearch.HasFullTextIndex | app/Services/TranslationSearchService.php:95-103 | the placeholder that never reports a full-text index |
| TranslationSearch.Wanted | app/Services/TranslationSearchService.php:29-32 | the rows a request asks for, stated declaratively: live, and meeting each filled filter |
| TranslationSearch.Query.constructor | app/Services/TranslationSearchService.php:16 | a new query has no conditions |
| TranslationSearch.ApplyLanguageFilter | app/Services/TranslationSearchService.php:43-48 | adds the language-id condition exactly when `language` is filled |
| TranslationSearch.ApplyTagFilter | app/Services/TranslationSearchService.php:50-60 | adds the tag condition exactly when `tag` is filled |
| TranslationSearch.ApplyKeyFilter | app/Services/TranslationSearchService.php:62-79 | when `key` is filled adds a `LIKE` with the key as pattern if it holds `%`, an equality otherwise; adds nothing when it is not filled |
| TranslationSearch.ApplyContentFilter | app/Services/TranslationSearchService.php:81-104 | adds `value LIKE %value%` exactly when `value` is filled, whatever the driver |
| TranslationSearch.Execute | app/Services/TranslationSearchService.php:16 | the query yields exactly the non-deleted rows satisfying every condition |
| TranslationSearch.Matching | app/Services/TranslationSearchService.php:29-32 | the rows a request asks for: exactly the non-deleted rows meeting each filled filter |
| TranslationSearch.BuiltConditionsMeanWanted | app/Services/TranslationSearchService.php:29-32 | the conditions the four filters add hold of a live row exactly when the row is wanted |
| TranslationSearch.ExecuteIsMatching | app/Services/TranslationSearchService.php:29-35 | running conditions equivalent to the request gives the request's matching rows in store order |
| TranslationSearch.PageSize | app/Services/TranslationSearchService.php:36 | the page size is `per_page` when given and positive, 15 otherwise |
| TranslationSearch.PageNumber | app/Services/TranslationSearchService.php:39 | the page number is `page` when given and positive, 1 otherwise |
| TranslationSearch.Window | app/Services/TranslationSearchService.php:35-40 | a page holds up to size consecutive matches from its start, full unless it reaches the end, non-empty when it starts inside the matches |
| TranslationSearch.Paginate | app/Services/TranslationSearchService.php:35-40 | the page reports the total number of matches, its size and number, and holds the matches from `(page - 1) * per_page` on |
| TranslationSearch.PageItemsMatch | app/Services/TranslationSearchService.php:35-40 | every row on a page is a match |
| TranslationSearch.PageOf | app/Services/TranslationSearchService.php:35-40 | every position among the matches lies on a page at a place below the page size |
| TranslationSearch.Search | app/Services/TranslationSearchService.php:13-41 | building the query filter by filter and paginating yields the page of the request's matching rows |
| TranslationSearch.SearchSound | app/Services/TranslationSearchService.php:13-41 | every listed row is a live store row that meets every filled filter |
| TranslationSearch.RowOnSomePage | app/Services/TranslationSearchService.php:35-40 | every match is on some page |
| TranslationSearch.SearchComplete | app/Services/TranslationSearchService.php:13-41 | every wanted store row is listed on some page |
| TranslationSearch.Live | app/Models/Translation.php:14 | the live rows are exactly the rows not soft-deleted |
| TranslationSearch.NoFilterListsAllLive | app/Services/TranslationSearchService.php:13-41 | with no filter filled, the search lists all live rows in order |
| TranslationSearch.OtherParamsIgnored | app/Services/TranslationSearchService.php:29-32 | parameters other than `language`, `tag`, `key` and `value` do not change the result |
| TranslationSearch.LanguageFilterRestricts | app/Services/TranslationSearchService.php:43-48 | with `language` filled every listed row has that language id |
| TranslationSearch.KeyFilterMeaning | app/Services/TranslationSearchService.php:62-79 | among the rows the other filters keep, a key without `%` keeps exactly the rows with that key, and a wildcard-free stem followed by `%` exactly the rows whose key starts with the stem |
| TranslationSearch.ValueFilterIsSubstring | app/Services/TranslationSearchService.php:81-93 | among the rows the other filters keep, a wildcard-free value keeps exactly the rows whose value contains it |
| TranslationSearch.MatchingKeepsDistinctIds | app/Services/TranslationSearchService.php:56-58 | filtering never lists a row twice |
| TranslationSearch.PageKeepsDistinctIds | app/Services/TranslationSearchService.php:35-40 | a page never lists a row twice |
| TranslationSearch.TagFilterDistinct | app/Services/TranslationSearchService.php:50-60 | with `tag` filled every listed row carries that tag and no row appears twice despite the join |
| Requests.TranslationErrors | app/Http/Requests/TranslationRequest.php:16-42 | a translation payload can fail only on `key`, `value`, `language_id` and `tags` |
| Requests.KeyTaken | app/Http/Requests/TranslationRequest.php:21-28 | the unique rule's query over all rows, soft-deleted ones included, with the payload's language and the route's row ignored |
| Requests.ValidTranslation | app/Http/Requests/TranslationRequest.php:16-42 | an acceptable translation payload, row by row |
| Requests.KeyTakenMeans | app/Http/Requests/TranslationRequest.php:21-28 | the unique rule fires exactly when some row, soft-deleted or not, other than the ignored one has the key and language |
| Requests.TranslationAcceptedIffValid | app/Http/Requests/TranslationRequest.php:16-42 | the rules accept a payload exactly when key and value are non-blank, the language exists, every given tag exists and no other row has the same key and language |
| Requests.MissingFieldRejected | app/Http/Requests/TranslationRequest.php:21-35 | a missing or blank key or value, or a missing language id, is reported on that field |
| Requests.DuplicateKeyRejected | app/Http/Requests/TranslationRequest.php:21-28 | any other row with the same key and language, a soft-deleted one included, makes `key` fail |
| Requests.OwnKeyAccepted | app/Http/Requests/TranslationRequest.php:27 | updating a translation with its own key and language passes the unique rule |
| Requests.UnknownTagRejected | app/Http/Requests/TranslationRequest.php:36-40 | a tag id that does not exist makes `tags` fail |
| Requests.LanguageErrors | app/Http/Requests/LanguageRequest.php:15-30 | a language payload can fail only on `code` and `name` |
| Requests.BadCodeRejected | app/Http/Requests/LanguageRequest.php:20-24 | a missing or blank code, or one over 10 characters, is rejected |
| Requests.BadNameRejected | app/Http/Requests/LanguageRequest.php:25-28 | a missing or blank name, or one over 255 characters, is rejected |
| Requests.CodeTaken | app/Http/Requests/LanguageRequest.php:23 | the unique rule on `languages.code`: some language other than the route's one has the code |
| Requests.ValidLanguage | app/Http/Requests/LanguageRequest.php:15-29 | an acceptable language payload: a code present, not blank, at most 10 characters and held by no other language, and a name present, not blank and at most 255 characters |
| Requests.LanguageAcceptedIffValid | app/Http/Requests/LanguageRequest.php:15-29 | the rules accept a language payload exactly when it is valid in that sense |
| Requests.OwnCodeAccepted | app/Http/Requests/LanguageRequest.php:17-24 | updating a language with its own code of at most 10 characters passes the code rules |
| Requests.AcceptedCodeKeepsUnique | app/Http/Requests/LanguageRequest.php:20-24 | saving an accepted payload under the route language or a fresh id keeps language codes unique |
| TranslationControllers.NewTranslation | app/Http/Controllers/API/TranslationController.php:35-39 | a created row carries the payload's key, value and language, no tags unless given and then exactly the given ones |
| TranslationControllers.TagSet | app/Http/Controllers/API/TranslationController.php:38 | `sync` keeps each given tag once: the tag list as a set |
| TranslationControllers.Updated | app/Http/Controllers/API/TranslationController.php:53-57 | an updated row keeps its id and deletion state, takes the payload's key, value and language, and replaces its tags only when tags are given |
| TranslationControllers.CreateKeepsConsistent | database/migrations/2024_03_20_000004_create_translations_table.php:15-22 | creating a row from an accepted payload keeps the schema's invariants |
| TranslationControllers.UpdateKeepsConsistent | database/migrations/2024_03_20_000004_create_translations_table.php:15-22 | updating a row with an accepted payload keeps the schema's invariants |
| TranslationControllers.SoftDeleteKeepsConsistent | database/migrations/2024_03_20_000004_create_translations_table.php:19-22 | soft-deleting a row keeps the schema's invariants |
| TranslationControllers.SelectRowsByElements | app/Services/TranslationCacheService.php:90-98 | filters with the same id multisets select the same rows |
| TranslationControllers.FetchedRespectsKey | app/Services/TranslationCacheService.php:59-113 | over natural ids, filters sharing a cache key fetch the same document, so one cached entry serves them all |
| TranslationControllers.Fresh | app/Http/Controllers/API/TranslationController.php:31-76 | every cached export is the document the current store yields for its filter |
| TranslationControllers.TranslationController.Valid | app/Http/Controllers/API/TranslationController.php:17-22 | the controller's invariant: a consistent store, a cache whose entries are all registered, and only current cached exports |
| TranslationControllers.TranslationController.constructor | app/Http/Controllers/API/TranslationController.php:17-22 | a controller over a consistent store and an empty cache starts valid |
| TranslationControllers.TranslationController.Index | app/Http/Controllers/API/TranslationController.php:24-29 | answers the search page of the request's matching rows |
| TranslationControllers.TranslationController.Store | app/Http/Controllers/API/TranslationController.php:31-47 | a rejected payload changes nothing and reports its failing fields; an accepted one appends the new row under the next id, empties the cache and answers it as created, keeping the store consistent and every cached document current |
| TranslationControllers.TranslationController.Update | app/Http/Controllers/API/TranslationController.php:49-66 | an unknown or deleted id answers not found and a rejected payload its failing fields, both changing nothing; otherwise the row is overwritten in place and the cache emptied |
| TranslationControllers.TranslationController.Destroy | app/Http/Controllers/API/TranslationController.php:68-76 | an unknown or deleted id answers not found; otherwise the row is marked deleted (keeping its tags), the cache emptied, and 204 answered |
| TranslationControllers.TranslationController.ExportTranslations | app/Http/Controllers/API/TranslationController.php:78-97 | the download is always the document the current store yields for the languages and tags (each defaulting to none), cached and registered under its key; every other cached document and registered key stays as it was |
| TranslationControllers.ExportAfterUpdate | app/Http/Controllers/API/TranslationController.php:49-97 | an export after an update reflects the store after the update, whatever was exported before |
| TranslationsSeeding.CandidateInjective | database/seeders/TranslationsTableSeeder.php:35-42 | different counters give different candidate keys |
| TranslationsSeeding.BaseKey | database/seeders/TranslationsTableSeeder.php:35 | `key_` followed by the loop index divided by the number of languages, rounded down |
| TranslationsSeeding.Candidate | database/seeders/TranslationsTableSeeder.php:36-41 | the n-th key the inner loop tries: the base, then the base with `_n` |
| TranslationsSeeding.FirstFreeFrom | database/seeders/TranslationsTableSeeder.php:40-42 | the first counter from n on whose key is unused, when all earlier ones are used |
| TranslationsSeeding.FirstFree | database/seeders/TranslationsTableSeeder.php:36-42 | the counter the inner loop stops at |
| TranslationsSeeding.FreeKey | database/seeders/TranslationsTableSeeder.php:36-42 | the key the inner loop settles on |
| TranslationsSeeding.FirstFreeIsLeast | database/seeders/TranslationsTableSeeder.php:40-42 | a counter whose key is unused while every earlier one is used is the one the loop stops at |
| TranslationsSeeding.FreeKeyIsFree | database/seeders/TranslationsTableSeeder.php:40-43 | the settled key is unused for the language, and is the base itself when the base is unused |
| TranslationsSeeding.NextFreeKey | database/seeders/TranslationsTableSeeder.php:35-42 | the loop ends with the first candidate (base, then base_1, base_2, ...) not yet used for the language, every earlier one being used |
| TranslationsSeeding.KeysOf | database/seeders/TranslationsTableSeeder.php:43 | the keys generated so far for a language |
| TranslationsSeeding.KeysOfMeans | database/seeders/TranslationsTableSeeder.php:43 | a key is among a language's generated keys exactly when some generated record has that key and language |
| TranslationsSeeding.Generate | database/seeders/TranslationsTableSeeder.php:30-53 | the records the loop generates, in order, failed batches included |
| TranslationsSeeding.GeneratedRecord | database/seeders/TranslationsTableSeeder.php:31-53 | record i is in the language chosen for it, its value is `Translation value {key} in {code}`, and its key is `key_{i / n}` unless that key was generated before for the language, else the first free suffixed one |
| TranslationsSeeding.GeneratedPairsDistinct | database/seeders/TranslationsTableSeeder.php:40-43 | no two generated records share key and language |
| TranslationsSeeding.Survivors | database/seeders/TranslationsTableSeeder.php:56-96 | the records of the batches of 1000 whose insert does not fail, in order |
| TranslationsSeeding.NoFailureInsertsAll | database/seeders/TranslationsTableSeeder.php:56-90 | when no insert fails, every generated record of the flushed batches is inserted, in order |
| TranslationsSeeding.SurvivorsAreGenerated | database/seeders/TranslationsTableSeeder.php:91-96 | a failing batch only loses records: every inserted record was generated |
| TranslationsSeeding.AddFreshRecord | database/seeders/TranslationsTableSeeder.php:40-53 | a record with a key not yet used for its language keeps (key, language) pairs distinct |
| TranslationsSeeding.TagRelations | database/seeders/TranslationsTableSeeder.php:74-80 | one relation per chosen tag of a translation, in order |
| TranslationsSeeding.RelationsFor | database/seeders/TranslationsTableSeeder.php:73-81 | the relations queued for a list of inserted ids, id by id in order |
| TranslationsSeeding.RelationsForAppend | database/seeders/TranslationsTableSeeder.php:73-81 | the relations of two id lists are the relations of each, concatenated |
| TranslationsSeeding.QueueRelations | database/seeders/TranslationsTableSeeder.php:73-81 | the nested loops append, for each inserted id in order, one relation per chosen tag |
| TranslationsSeeding.RelationsPerId | database/seeders/TranslationsTableSeeder.php:73-81 | with distinct ids, each id gets exactly as many relations as tags were chosen for it, other ids none |
| TranslationsSeeding.OneToThreeTagsEach | database/seeders/TranslationsTableSeeder.php:74 | when one to three tags are chosen per translation, each inserted translation gets one to three relations |
| TranslationsSeeding.SeedSink.InsertRecords | database/seeders/TranslationsTableSeeder.php:59 | a batch insert appends the records under consecutive ids from the next id |
| TranslationsSeeding.SeedSink.InsertRelations | database/seeders/TranslationsTableSeeder.php:85 | a relation insert appends the relations |
| TranslationsSeeding.InsertBatch | database/seeders/TranslationsTableSeeder.php:56-96 | a failing insert writes nothing and drops the batch; otherwise the batch is appended under consecutive ids and its relations queued, and the queue is written whole and emptied once it holds 1000 or more, and left untouched with nothing written below that |
| TranslationsSeeding.SeedRecord | database/seeders/TranslationsTableSeeder.php:31-97 | one pass of the loop generates the next record as described and flushes a full batch, keeping the run's bookkeeping |
| TranslationsSeeding.FlushBatch | database/seeders/TranslationsTableSeeder.php:55-97 | a full batch, or the pending one after the last record, is inserted or dropped on failure and a new batch begins; the run's bookkeeping is kept |
| TranslationsSeeding.LastBatchIsFull | database/seeders/TranslationsTableSeeder.php:21-22 | 100000 records in batches of 1000 leave a full batch pending at the last index |
| TranslationsSeeding.GenerationDone | database/seeders/TranslationsTableSeeder.php:30-98 | at the end of the loop the records inserted are the survivors of all 100 batches, and every generated record when none failed |
| TranslationsSeeding.Run | database/seeders/TranslationsTableSeeder.php:13-107 | nothing is written when a translation exists or there are no languages; otherwise the records written are exactly the generated records of the 100 batches of 1000 whose insert does not fail (all 100000 when none fails), with distinct (key, language) pairs, consecutive ids, and exactly the tag relations chosen for the inserted ids |
| TranslationsSeeding.SeededIdsGetOneToThreeTags | database/seeders/TranslationsTableSeeder.php:59-87 | the ids a run hands out are distinct, so each seeded translation gets one to three tag relations |

## Left out

- Cache expiry: entries and the key registry are written with a 1200-second TTL; time is not modelled, so an entry never expires and the registry's TTL refresh on every new key has no effect here.
- TranslationControllers.TranslationController.ExportTranslations: the guarantee that a download is always what the current store yields holds in this model only. In the source the registry's TTL is refreshed only when a new key is added, so a re-fetched entry under an already registered key can outlive the registry; a later clear then misses it and a stale document is served for up to 1200 seconds. Renaming a language's code (language controller, not part of this model) does not clear the cache either, so cached documents keep the old code.
- TranslationControllers.ExportAfterUpdate: an export after an update reflects the update only under the same two conditions: no registry expiry and no language rename in between.
- TranslationControllers.Fresh: the invariant that every cached document is current does not survive registry expiry or a language rename in the source, for the reasons above.
- TranslationCache.LookupAfterClearReadsStore: after a clear, an entry whose key fell out of an expired registry would still be served; the model has no expiry.
- Concurrency: the registry's read-modify-write in `generateCacheKey` can lose keys under concurrent requests; the model runs one request at a time.
- Collation: `LIKE` and `=` are compared character by character; MySQL's case-insensitive collation, trailing-space rules and the `\` escape character are not modelled.
- The MySQL full-text branch of the content filter is unreachable (`hasFullTextIndex` is a constant false) and is not modelled beyond that; the database driver is a parameter.
- TranslationCache.CacheKey: ids are naturals, so only their canonical decimal spelling is modelled. In the source `languages[]` and `tags[]` are request strings: `["1"]` and `["01"]` give two keys for the same ids, and since PHP's `sort` is stable and compares numeric strings as numbers, `["1", "01"]` and `["01", "1"]` give two keys too. The "same multisets give the same key" half of `TranslationCache.CacheKeyIdentifiesFilter` therefore holds in the source for canonical spellings only; non-numeric ids are not representable.
- TranslationCache.CacheKeyIdentifiesFilter: the "same key only for the same multisets" half holds for natural ids only. In the source the ids are request strings joined with `_`, so `languages[]=1_2` and `languages[]=1&languages[]=2` both give `translations_lang_1_2`, and `languages[]=1_tag_2` and `languages[]=1&tags[]=2` both give `translations_lang_1_tag_2`; `whereIn` selects different rows for them, so whichever filter is exported first fills the entry the other is then served.
- TranslationControllers.FetchedRespectsKey: for the same reason, two filters whose string ids collide in the key (an id containing `_` or `_tag_`) share a cache entry in the source without selecting the same rows; the model's ids cannot contain `_`.
- TranslationControllers.TranslationController.ExportTranslations: a scalar `languages` or `tags` parameter (`?languages=1`) is passed to `getTranslations(array $languages, array $tags)` in the source, which raises a `TypeError` and answers 500; the model's filters are always id lists.
- Lenient SQL casts: an id parameter that does not spell a number (`"1abc"`, `"-1"`, `" 7"`) matches no row in the model, whereas MySQL would cast it.
- Page parameters that are not natural numbers (negative, non-numeric strings) are not representable; `per_page` and `page` are optional naturals.
- Row order: listings and exports follow insertion order; SQL without `ORDER BY` guarantees none.
- Eager loading of languages and tags, the JSON resources, the streamed response body, its `Content-Type`/`Content-Disposition` headers and the timestamped file name are presentation and are not modelled.
- Authentication (Sanctum), the authentication controller and the language controller are not part of this model; in particular deleting a language cascades to its translations without clearing the export cache, which this model does not capture.
- Payload fields of the wrong type (a non-array `tags`, a `null` `tags`, a string `language_id`) are not representable; `tags` is either absent or a list of ids.
- Laravel's `TrimStrings` and `ConvertEmptyStringsToNull` middleware are not modelled: blankness is checked on the string as received.
- TranslationsSeeding.Run: the ids of an inserted batch are the consecutive ids the insert assigned; the source re-reads them with a query on `created_at` and `key`, which can also match earlier rows with a key of the batch inserted in the same second.
- TranslationsSeeding.Run: a failing relation insert is not modelled; only a failing record insert (the `failAt` batches) is.
- TranslationsSeeding.Run: `Tag::all()->random(n)` throws when fewer than `n` tags exist; the chosen tags are a parameter (`pick`) instead, and `OneToThreeTagsEach` assumes one to three per translation.
- The random language choice, the random tags, `Translation::first()` (the `anyTranslation` flag), the clock and the database are parameters; console output, progress bar and logging are left out.
