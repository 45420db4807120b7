# Tor crawler and form server, modelled in Dafny

This project models the two programs of the repository.

- **The onion crawler.** A breadth-first frontier loop fetches hidden-service pages over Tor. It deduplicates links against its queue, its visited set and its offline set. It rotates the Tor identity after a counted page whose count is a multiple of `refresh_every`, unless that page answered with a status other than 200 (such a pass skips the check), and it stops after a page budget. It appears twice: as the `TorCrawler` class (`crawler/crawler.py`) and as the module-level loop of `deep_crawl.py`. Around it sit the link extractor (`parser.py`), the seed merger (`seeds.py`) and the SQLite page store (`database/db.py`). The page store upserts by URL, counts writes, takes a checkpoint backup every ten writes, prunes the backup directory to the ten lexicographically greatest names it holds, and restores from the `.db` backup with the greatest name.
- **The form server.** An Express application receives a flat form body. It HTML-escapes every string in the body, recursively (`sanitize`, `sanitizeData`). It stores a record under a random four-digit code (`/submit`) and finds it again by code (`/lookup/:code`). Admin routes list or delete all records. A loopback-only guard with a bearer-token check protects those routes. The browser has its own record builder for bodies that are already grouped.

Layout, one module per file:

| file | module | models |
|---|---|---|
| seq_util.dfy | SeqUtil | `Option`, duplicate-freedom, `list(set(xs))` |
| string_order.dfy | StringOrder | Python's `<` on `str`, `sorted` of a set of strings |
| onion_parser.dfy | OnionParser | `ONION_RE` and `extract_onion_links` |
| seeds.dfy | Seeds | `get_seed_urls`, `get_ahmia_urls`, the crawler's seed list |
| crawl_spec.dfy | CrawlSpec | one pass of the crawl loop as a function, the run, the loop invariant |
| crawler.dfy | Crawler | the `TorCrawler` class with its fields updated in place |
| deep_crawl.dfy | DeepCrawl | the script's loop over its local variables |
| page_store.dfy | PageStore | the `CrawlerDB` class, backup retention, `recover_from_backup` |
| js_value.dfy | JsValue | JSON values, `for...in` keys, property reads |
| sanitize.dfy | Sanitizer | `sanitize` (five `replaceAll` calls) and its inverse |
| sanitize_data.dfy | DataSanitizer | `sanitizeData`, as a loop and as a function |
| form_entry.dfy | FormEntry | the stored record and the server's `createFormEntry` |
| client_form.dfy | ClientForm | the browser's `createFormEntry` |
| form_store.dfy | FormStore | `db.data` in memory and the last written file |
| form_routes.dfy | FormRoutes | `POST /submit`, `GET /lookup/:code` |
| admin_routes.dfy | AdminRoutes | `GET /forms`, `DELETE /forms` |
| server_guard.dfy | ServerGuard | `restrictLookup` and the `/admin` token check |

The environment is passed in as parameters:

- **The crawler.** Fetching, link extraction and `save_page` failures form one `Env` value. Every counted URL is fetched once, so a function from URL to outcome describes a whole run.
- **The page store.** Each failure the source catches, or lets escape, is a parameter: a locked database, a failed copy or removal, a failed close. The backup time stamp is also a parameter.
- **The form server.** Parameters are the four random draws of `nanoid`, `Date.now()`, and whether `db.write()` throws.

A few semantic points:

- Python's string order is `StringOrder.LexLess`: code point by code point, with a proper prefix first.
- `re.IGNORECASE` is modelled with Python's extra case-insensitive matches for `s`, `i` and `k` (U+017F; U+0130 and U+0131; U+212A).
- In JavaScript, `result["__proto__"] = v` does not create an own property, so `sanitizeData` never returns a `__proto__` key.
- An array passed to `sanitizeData` comes back as an object keyed by index.

## Model

| member | source | states |
|---|---|---|
| SeqUtil.Dedup | tor-crawler/crawler/crawler.py:14 | `list(set(xs))` has no duplicates, holds exactly the elements of `xs` and is no longer than it |
| StringOrder.LexIrreflexive | tor-crawler/crawler/seeds.py:22 | no string sorts before itself |
| StringOrder.LexAsymmetric | tor-crawler/crawler/seeds.py:22 | two strings are never each before the other |
| StringOrder.LexTransitive | tor-crawler/crawler/seeds.py:22 | the string order is transitive |
| StringOrder.LexTotal | tor-crawler/crawler/seeds.py:22 | of two different strings one sorts first |
| StringOrder.SortedUnique | tor-crawler/crawler/seeds.py:22 | `sorted(set(xs))` is strictly ascending and holds exactly the elements of `xs` |
| StringOrder.StrictlySortedUnique | tor-crawler/crawler/seeds.py:22 | two strictly ascending lists with the same elements are equal, so any such list is the sorted set |
| StringOrder.SortedNames | tor-crawler/database/db.py:112 | the sorted directory listing is the strictly ascending list of exactly the directory's names |
| OnionParser.MatchLen | tor-crawler/crawler/parser.py:6 | a match of the pattern at a position has length 69 or 70 and has the onion-URL shape (`http`/`https`, `://`, 56 host characters, `.onion`, case-insensitive) |
| OnionParser.OnionUrlIsMatch | tor-crawler/crawler/parser.py:6 | every onion URL written in the text is matched, at full length, at its position |
| OnionParser.NoMatchInsideMatch | tor-crawler/crawler/parser.py:13 | no match starts inside another match, so the non-overlapping scan loses none |
| OnionParser.FindAll | tor-crawler/crawler/parser.py:13 | every string `findall` returns is an onion URL that occurs in the text |
| OnionParser.FindAllComplete | tor-crawler/crawler/parser.py:13 | the scan from a position returns every match at or after it |
| OnionParser.ExtractOnionLinks | tor-crawler/crawler/parser.py:9-13 | `None` or `""` gives `[]`; the result has no duplicates, and every element has length 69 or 70, the onion-URL shape and occurs in the input |
| OnionParser.ExtractExactlyTheOnionUrls | tor-crawler/crawler/parser.py:9-13 | a string is extracted from a non-empty text exactly when it is an onion URL occurring in that text |
| Seeds.GetSeedUrls | tor-crawler/crawler/seeds.py:15-22 | the result is strictly ascending, without duplicates, and contains every static seed; its elements are the static and scraped seeds, or only the static ones when the scrape raises |
| Seeds.GetAhmiaUrls | tor-crawler/crawler/seeds.py:25-30 | the scraped list unchanged, or `[]` when the scrape raises |
| Seeds.SeedUrlsAreSortedUnion | tor-crawler/crawler/seeds.py:17-22 | the result equals every strictly ascending list of the union of static and scraped seeds |
| Seeds.FallbackIsSortedStatic | tor-crawler/crawler/seeds.py:19-21 | when the scrape raises, the result is the two static seeds in ascending order (`http://darkfail…` first) |
| Seeds.CrawlerSeeds | tor-crawler/crawler/crawler.py:14 | the crawler's seeds have no duplicates and are exactly the static seeds and the URLs of either scrape |
| CrawlSpec.Initial | tor-crawler/crawler/crawler.py:15-19 | the queue is the seed list; the sets are empty and the counters are zero |
| CrawlSpec.OfferFacts | tor-crawler/crawler/crawler.py:46-48 | the link loop only appends; a URL ends up queued exactly when it was queued already or is a link in neither set; a duplicate-free queue stays duplicate-free |
| Crawler.OfferLinks | tor-crawler/crawler/crawler.py:46-48 | the link loop's result is `Offer` of its inputs |
| CrawlSpec.Pass | tor-crawler/crawler/crawler.py:26-59 | a pass either keeps `count` and shortens the queue, or adds one to `count` |
| CrawlSpec.PassPopsHead | tor-crawler/crawler/crawler.py:26-29 | a pass removes exactly the head; the old tail is a prefix of the new queue; an already seen head is dropped with nothing else changed; the log of counted URLs only grows |
| CrawlSpec.RotationPointsExact | tor-crawler/crawler/crawler.py:58-59 | the k-th counted URL causes a rotation exactly when `k % refresh_every == 0` and its pass reached the check (it was not a non-200 answer) |
| CrawlSpec.InitialInv | tor-crawler/crawler/crawler.py:14-19 | a crawler started from duplicate-free seeds satisfies the loop invariant |
| CrawlSpec.CountedIsNew | tor-crawler/crawler/crawler.py:28-31 | under the invariant a counted head is in no set, not yet logged, and absent from the rest of the queue |
| CrawlSpec.LogStep | tor-crawler/crawler/crawler.py:58-59 | logging one more counted URL keeps the rotation record in step with the log |
| CrawlSpec.CountedStep | tor-crawler/crawler/crawler.py:31-32 | a counted pass appends the head to the log, which stays duplicate-free and in step with the rotations |
| CrawlSpec.OfflinePassInv | tor-crawler/crawler/crawler.py:34-39 | a counted pass whose fetch raises or answers non-200 keeps the invariant |
| CrawlSpec.SuccessPassFields | tor-crawler/crawler/crawler.py:41-52 | after a 200 answer: the URL is visited, new links are offered, `success` and `count` go up by one, and the URL is also offline exactly when the save raised |
| CrawlSpec.SuccessQueue | tor-crawler/crawler/crawler.py:46-48 | after a 200 answer the queue has no duplicates and shares nothing with either set |
| CrawlSpec.SuccessSets | tor-crawler/crawler/crawler.py:42-56 | after a 200 answer `success` equals the size of `visited`, the log is `visited ∪ offline`, and a visited URL is offline exactly when its save raised |
| CrawlSpec.SuccessPassInv | tor-crawler/crawler/crawler.py:41-59 | a counted pass with a 200 answer keeps the invariant |
| CrawlSpec.PassInv | tor-crawler/crawler/crawler.py:25-61 | every pass keeps the invariant |
| CrawlSpec.RunInv | tor-crawler/crawler/crawler.py:25-61 | the run keeps the invariant, stops on an empty queue or a spent budget, never lowers `count`, never passes a budget it started within, and only extends the log |
| CrawlSpec.InvCount | tor-crawler/crawler/crawler.py:31-56 | under the invariant the size of `visited ∪ offline` equals `count` |
| CrawlSpec.InvRotations | tor-crawler/crawler/crawler.py:58-59 | under the invariant the rotations are exactly the counts `RotationPointsExact` describes |
| CrawlSpec.CrawlOutcome | tor-crawler/crawler/crawler.py:25-61 | from duplicate-free seeds, at loop exit: `count <= max_pages` (or 0), an empty queue or a spent budget, a duplicate-free queue disjoint from both sets, the size of `visited ∪ offline` equals `count`, `success` equals the size of `visited`, visited and offline overlapping exactly in the URLs whose save raised, and rotations exactly at the passes that reached the check with `count % refresh_every == 0` |
| CrawlSpec.ScenarioLinks | tor-crawler/crawler/crawler.py:46-48 | two fresh links are both appended, in order |
| CrawlSpec.ScenarioFirstPass | tor-crawler/crawler/crawler.py:26-59 | a 200 answer with two links visits the page and queues both links |
| CrawlSpec.ScenarioSecondPass | tor-crawler/crawler/crawler.py:36-39 | a 404 answer counts the URL and marks it offline, with no success |
| CrawlSpec.ScenarioThirdPass | tor-crawler/crawler/crawler.py:41-52 | a 200 answer without links visits the page and adds nothing to the queue |
| CrawlSpec.EndToEndScenario | tor-crawler/crawler/crawler.py:25-61 | the three-page example ends with A and C visited, B offline, three counted, two successes and no rotation |
| Crawler.TorCrawler.constructor | tor-crawler/crawler/crawler.py:11-19 | the seeds are the deduplicated merge of both seed calls; the queue is a copy of them; the sets and counters start empty |
| Crawler.TorCrawler.CrawlPass | tor-crawler/crawler/crawler.py:26-61 | one loop iteration on the fields yields exactly `Pass` of the old fields |
| Crawler.TorCrawler.Crawl | tor-crawler/crawler/crawler.py:25-61 | the loop leaves the fields as `Run` of the old fields, stops on an empty queue or a spent budget, and keeps the invariant |
| Crawler.RunInvOf | tor-crawler/crawler/crawler.py:25-61 | a state satisfying the invariant stays so over the run |
| Crawler.FreshCrawlOutcome | tor-crawler/crawler/crawler.py:14-61 | a fresh crawler's run ends within budget, with a duplicate-free queue, the size of `visited ∪ offline` equals `count` and `success` equals the size of `visited` |
| DeepCrawl.MainLoop | tor-crawler/deep_crawl.py:26-63 | the script's loop over its variables ends in `Run` of the seed state with budget 200 and refresh 20 |
| DeepCrawl.DeepCrawl | tor-crawler/deep_crawl.py:15-63 | the script ends with `count <= 200`, an empty queue or `count == 200`, a duplicate-free queue disjoint from both sets, the size of `visited ∪ offline` equals `count`, `success` equals the size of `visited`, and a circuit refresh exactly at the multiples of 20 whose pass reached the check |
| PageStore.BackupName | tor-crawler/database/db.py:104-105 | a backup name starts with `onions_backup_` and ends with `.db` |
| PageStore.BackupNamesFollowStamps | tor-crawler/database/db.py:104-112 | for time stamps of one width, a later stamp gives a name that sorts later |
| PageStore.Upsert | tor-crawler/database/db.py:74-77 | the URL's row becomes the new row; every other row stays; the table grows only for a new URL |
| PageStore.RemovedCount | tor-crawler/database/db.py:112-115 | a directory of at most 10 loses nothing; a larger one loses all but 10, or fewer when a removal raises |
| PageStore.RetentionKeepsNewest | tor-crawler/database/db.py:112-115 | without a failure, `min(n, 10)` backups remain, each unchanged, and every removed name sorts before every kept one |
| PageStore.NewestBackupSurvives | tor-crawler/database/db.py:104-115 | a new backup whose name is the greatest survives its own retention pass with the snapshot |
| PageStore.CrawlerDB.constructor | tor-crawler/database/db.py:23-29 | `page_count` starts at the number of existing rows, or 0 when counting raises |
| PageStore.CrawlerDB.CreateCheckpointBackup | tor-crawler/database/db.py:101-122 | the directory becomes `AfterBackup`: the copy under the time-stamped name, then the oldest names removed; a failure is swallowed; nothing else changes |
| PageStore.CrawlerDB.RemoveOldest | tor-crawler/database/db.py:112-116 | the loop removes the first `RemovedCount` names of the listing and nothing else |
| PageStore.CrawlerDB.SavePage | tor-crawler/database/db.py:70-99 | a committed first try upserts the row with status `active`, adds one to `page_count` and backs up exactly when the new count is a multiple of 10; a locked first try adds one to `page_count` only when the commit raised, never backs up, then upserts once more, or raises when the retry fails |
| PageStore.CrawlerDB.GetStats | tor-crawler/database/db.py:124-130 | `healthy` with the row count, or `corrupted` when the query fails |
| PageStore.CrawlerDB.Close | tor-crawler/database/db.py:132-143 | the connection is closed unless a step raises; nothing else changes |
| PageStore.LatestDbUnique | tor-crawler/database/db.py:163-168 | the greatest `.db` backup name is unique |
| PageStore.DbNames | tor-crawler/database/db.py:163 | the filter keeps exactly the names ending with `.db` |
| PageStore.RecoverFromBackup | tor-crawler/database/db.py:161-180 | no `.db` backup: False, nothing changes; otherwise the store is closed and the greatest `.db` backup is copied over it; the store is open again unless the copy or the `sqlite3.connect` failed (a failing setup statement after the connect leaves it open on the restored pages); True exactly when nothing failed; `page_count` and the backups are unchanged |
| JsValue.IndexKey | server/routes/formRoutes.js:26 | an index key is a non-empty string of digits, one digit exactly below 10 |
| JsValue.IndexKeyInjective | server/routes/formRoutes.js:26 | distinct array indices have distinct `for...in` keys |
| JsValue.IndexOf | server/routes/formRoutes.js:26 | finds the index whose key is `k`, or shows that none below `n` has it |
| JsValue.IndexKeys | server/routes/formRoutes.js:26 | the keys of an array of length `n` are exactly the keys of indices below `n` |
| JsValue.ArrayMember | server/routes/formRoutes.js:26-27 | every index key is a `for...in` key of the array, and reading it gives that element |
| Sanitizer.SanitizeValue | server/routes/formRoutes.js:11-19 | a non-string is returned unchanged; a string is escaped |
| Sanitizer.SanitizeEscapes | server/routes/formRoutes.js:13-18 | the `replaceAll` chain replaces each special character with its entity, character by character |
| Sanitizer.EscapeStage | server/routes/formRoutes.js:14-18 | each `replaceAll` call escapes exactly its own character and leaves the entities of earlier calls intact |
| Sanitizer.UnescapeStage | server/routes/formRoutes.js:14-18 | replacing an entity back undoes exactly its own stage |
| Sanitizer.UnescapeSanitize | server/routes/formRoutes.js:14-18 | undoing `&#39;`, `&quot;`, `&gt;`, `&lt;` and then `&amp;` gives back the original string |
| Sanitizer.SanitizedShape | server/routes/formRoutes.js:13-18 | the output has no raw `<`, `>`, `"` or `'`, and every `&` in it begins one of the five entities |
| Sanitizer.EscapedLength | server/routes/formRoutes.js:13-18 | escaping never shortens a string, and keeps its length exactly when it has no special character |
| Sanitizer.SanitizeFixesPlain | server/routes/formRoutes.js:13-18 | `sanitize(s) == s` exactly when `s` has none of the five special characters |
| Sanitizer.SanitizeWithoutAmpersand | server/routes/formRoutes.js:13-18 | an output without `&` is the unchanged input |
| DataSanitizer.SanitizeData | server/routes/formRoutes.js:24-34 | the `for...in` loop with recursion returns exactly `SanitizedData(obj)` |
| DataSanitizer.SanitizeDataOfObject | server/routes/formRoutes.js:24-34 | on an object the result has exactly its keys except `__proto__`; nested objects and arrays are sanitised recursively; strings are escaped (and `Unescape` recovers them); other values are unchanged |
| DataSanitizer.SanitizeDataOfArray | server/routes/formRoutes.js:26-31 | an array comes back as an object holding element `i` under key `"i"`, and no other key |
| DataSanitizer.CleanEntry | server/routes/formRoutes.js:27-31 | every entry the loop stores is clean |
| DataSanitizer.SanitizedDataIsClean | server/routes/formRoutes.js:24-34 | whatever the input, the result has no array, and every string at every depth is escaped |
| DataSanitizer.PlainDataUnchanged | server/routes/formRoutes.js:24-34 | an object already free of special characters, arrays and `__proto__` comes back unchanged |
| FormRoutes.NanoidNumbers | server/routes/formRoutes.js:21 | a generated code is four characters from `0123456789` |
| FormRoutes.EveryCodeDrawable | server/routes/formRoutes.js:21 | every four-digit code can be generated |
| FormRoutes.Submit | server/routes/formRoutes.js:36-55 | `db.data` and `forms` are initialised when missing, then exactly one record is appended at the end; the record is built from the sanitised body under the generated code; the other keys stay; unless the write throws, the file receives the adapter's start-up copy, not `db.data`; the answer is the code, or 500 |
| FormRoutes.SubmittedEntryIsSanitized | server/routes/formRoutes.js:39-42 | the stored record has the answered code as `id` and the time stamp, and is built from the sanitised body |
| FormRoutes.ToUpperAscii | server/routes/formRoutes.js:63 | upper-casing keeps the length, maps `a`–`z` to `A`–`Z` and keeps every other character |
| FormRoutes.FirstWithId | server/routes/formRoutes.js:64 | `find` gives the first position with the id, or shows no record has it |
| FormRoutes.Lookup | server/routes/formRoutes.js:58-73 | `db.data` and `forms` are initialised when missing; the answer is the first record whose `id` is the escaped, upper-cased code, or 404 |
| FormRoutes.UpperOfCode | server/routes/formRoutes.js:63 | upper-casing gives a digit code exactly when the input is that code |
| FormRoutes.LookupKeyOfCode | server/routes/formRoutes.js:63-64 | a digit code is its own lookup key and the lookup key of no other string |
| FormRoutes.LookupAfterSubmit | server/routes/formRoutes.js:64 | looking up a just-appended record's id finds it, unless an earlier record has the same id; then it finds the earliest |
| FormStore.Initialized | server/routes/adminRoutes.js:8-9 | after initialising `db.data` and `forms` to `{}` and `[]` when they are missing, a `forms` list exists |
| FormStore.InitializedKeepsContents | server/routes/adminRoutes.js:8-9 | initialising keeps the records and the other keys, is idempotent, and changes nothing when `forms` exists |
| FormStore.FormDb.EnsureForms | server/routes/formRoutes.js:45-46 | `db.data` becomes its initialised form |
| FormStore.FormDb.constructor | server/db.js:65-74 | `db.data` starts as `{ forms: [] }`, whatever the adapter read from the file |
| FormStore.FormDb.Write | server/db.js:57-60 | the write succeeds unless it throws; a successful one leaves in the file the adapter's start-up copy, whatever `db.data` holds |
| FormStore.FormDb.WriteData | server/db.js:57-60 | corrected write: a successful one leaves `db.data` in the file |
| FormRoutes.SubmitLostOnDisk | server/db.js:57-60 | after a start with no readable file, a submitted record is found in memory but not in the file the successful write leaves |
| FormRoutes.SubmitKeptOnDisk | server/db.js:57-60 | with the corrected write, the file holds the records after the submission, and a lookup of the answered code in it finds a record with that code |
| AdminRoutes.GetForms | server/routes/adminRoutes.js:7-11 | `db.data` and `forms` are initialised when missing; the answer is the records unchanged, in order |
| AdminRoutes.DeleteForms | server/routes/adminRoutes.js:14-24 | `forms` becomes `[]` before the write and stays so when it fails, with answer 500; the other keys of `db.data` stay; unless the write throws, the file receives the adapter's start-up copy, so the records on disk are not deleted |
| FormEntry.CreateFormEntry | server/models/FormEntry.js:1-22 | the server's builder throws exactly on a `null` or `undefined` body; the record has the code as `id` and the time stamp |
| FormEntry.OnlyReadFieldsMatter | server/models/FormEntry.js:2-21 | bodies that agree on the twelve read keys give the same record, so extra fields are dropped |
| FormEntry.FlatFieldSources | server/models/FormEntry.js:6-19 | `SureName` comes from `Surname`, `receiverSureName` from `receiverSurename`, and the ten other fields from the key of their own name |
| FormEntry.NestedBodyGivesUndefined | server/models/FormEntry.js:6-19 | a body without the flat keys gives a record whose twelve fields are all `undefined` |
| ClientForm.CreateClientEntry | client/form.js:1-22 | the client's record has the code as `id` and the time stamp |
| ClientForm.ClientThrowsIff | client/form.js:5-20 | the client throws exactly when the body, `personInfo` or `receiverInfo` is `null` or `undefined` |
| ClientForm.ClientOnlyReadFieldsMatter | client/form.js:2-21 | bodies whose groups agree on the twelve read fields give the same record; everything else is dropped |
| ClientForm.PersonOfGroup | client/form.js:5-12 | the six `personInfo` fields are copied by name from the group |
| ClientForm.ReceiverOfGroup | client/form.js:13-20 | the six `receiverInfo` fields are copied by name from the group |
| ClientForm.ServerIsClientOfGrouped | client/form.js:1-22 | the client's record of a grouped body equals the server's record of the flat one |
| ServerGuard.NormalizeAddress | server/server.js:29 | a missing address becomes `""`; one leading `::ffff:` is removed; any other address is kept |
| ServerGuard.RestrictLookupAccepts | server/server.js:28-34 | a request passes exactly when its address is `127.0.0.1`, `::1`, `::ffff:127.0.0.1` or `::ffff:::1`; every other request gets 403 |
| ServerGuard.RestrictLookupExamples | server/server.js:29-31 | `::ffff:127.0.0.1` and `::1` pass; an empty or missing address gets 403 |
| ServerGuard.AdminGuardOutcome | server/server.js:46-52 | `/admin` is reached exactly by a local request with the exact header; a non-local one gets 403 even with the token; a local one without it gets 401 |

## Left out

- Crawler.TorCrawler.Crawl: requires `refresh_every != 0`. With 0 the source raises `ZeroDivisionError` at `count % refresh_every` on the first counted pass that reaches the check; that crash is not modelled.
- Crawler.TorCrawler.CrawlPass: requires `refresh_every != 0`, for the same reason.
- CrawlSpec.Pass: requires `refresh_every != 0`, for the same reason.
- CrawlSpec.Run: requires `refresh_every != 0`, for the same reason.
- The Tor session, identity rotation (recorded as the list of counts at which it happens), `time.sleep`, printing and logging are not modelled.
- Link extraction inside the crawl loop is the abstract `Env.extract`. The real extractor is modelled separately as `OnionParser.ExtractOnionLinks`.
- SeqUtil.Dedup: Python leaves the order of `list(set(...))` unspecified; the model keeps first occurrences. Contracts say nothing about the order.
- The dynamic seed scrape (`crawler/ahmia.py`) is an input: each of its two calls either returns a list or raises.
- SQLite is a map of committed rows:
  - transactions, `PRAGMA` statements, the isolation level and cursors are not modelled;
  - `crawled_at` is the parameter `now`;
  - a failure of `_initialize_db` in the constructor is not modelled;
  - a failure of `close` inside `recover_from_backup` is taken as a successful close.
- A file copy is a snapshot value, and `datetime.now()` is the parameter `stamp`.
- The module-level wrappers `save_page`, `get_stats` and `close_db` of `db.py` only forward to the single instance, and are not modelled separately.
- `nanoid`'s random bytes, mask and rejection sampling become four draws, each taken modulo 10. `Date.now()` is the parameter `now`.
- JavaScript objects are maps, so key order is not modelled.
  - DataSanitizer.SanitizedData: a `__proto__` key whose value is an object makes that object the prototype of the result. Properties read through that prototype (by `createFormEntry`) are not modelled; the model drops the key.
  - Inherited properties other than `length` are read as `undefined`.
- FormRoutes.ToUpperAscii: `toUpperCase` is modelled for ASCII letters only.
- `db.data` being a truthy non-object, and `forms` holding anything other than records, are not modelled.
- Encryption of the form database file (`server/db.js`) is not modelled: the file holds the plain value. The adapter's start-up `read()` is the constructor's `stored` parameter (the decrypted file, or `{ forms: [] }` when it is missing, empty or corrupt); its fallback write of a fresh file is not modelled.
- The routes model the write as written (`FormStore.FormDb.Write`); the corrected `FormStore.FormDb.WriteData` is stated beside it.
- The Express setup, static files, HTTPS and the listeners are not modelled, nor the `/lookup` page, which uses the same guard.

## Findings

| source | as written | input that shows it | evidently intended | confidence | as-written member | corrected member |
|---|---|---|---|---|---|---|
| server/db.js:57-60 | the adapter's `write()` ignores the data lowdb passes it and encrypts its own `this.data`, which only the start-up `read()` sets; `db` was built with a separate `{ forms: [] }` | start with no data file, then `POST /submit` whose write succeeds: the file's `forms` stays `[]`, and the record is gone after a restart; `DELETE /forms` likewise leaves the old records on disk | the write stores `db.data` | not executed | FormStore.FormDb.Write, FormRoutes.SubmitLostOnDisk | FormStore.FormDb.WriteData, FormRoutes.SubmitKeptOnDisk |
