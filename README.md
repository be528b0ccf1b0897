# hunting: a Dafny model of the advisory scraper and query-template engine

The application scrapes CISA `#StopRansomware` advisories. It stores
reports, user-written query templates and an execution history in SQLite.
It resolves templates by substituting the indicators of an advisory
(domains, hashes, filenames) for the `$1` placeholder. This project models
the logic of `app.py` that survives once HTTP, HTML parsing and the ORM are
abstracted away, and proves properties of it.

- `wrappers.dfy` (`Wrappers`): `Option`, `Result`, and `FirstIndex`, the
  first-match lookup behind `.filter_by(...).first()` and `soup.find(...)`.
- `text.dfy` (`Text`): the Python `str` operations the code relies on.
  `startswith`, `in`, `replace`, `'|'.join` and `strip` keep CPython's
  semantics. `replace` is a left-to-right, non-overlapping pass over every
  occurrence. `find` and `split` serve as its independent reference.
- `defang.dfy` (`Defanging`): `defang`, three chained `replace` calls.
- `rows.dfy` (`Rows`): the rows of the `reports`, `queries` and
  `execution_history` tables as datatypes, and the id-ordering invariants.
- `scraper.dfy` (`Scraper`): BeautifulSoup's output becomes datatypes.
  - A listing page is a sequence of teaser `ArticleNode`s.
  - An advisory is a sequence of `<th>` `HeaderCell`s, each with the `<td>`
    cells of its table.
  - The module covers the article filter, table-cell extraction and
    `Sweep`, the specification function of `scrape_reports`.
  - A malformed article raises in Python. Here it is a `ParseError` in a
    `Result`.
- `resolution.dfy` (`Resolution`): the engine of `execute_query`.
  - `SelectRelevant` selects templates by type.
  - `ResolveAll` keeps the templates that contain `$1` and replaces every
    `$1` with the `|`-joined defanged indicators.
- `store.dfy` (`Store`): class `Database`.
  - Its fields are the three tables as sequences and the two id counters.
  - Its methods are the request handlers that change them: the sweep,
    store, import, update, execute, delete one and delete all.
  - `Valid()` says that ids are increasing and below the next id. Every
    request handler that starts from a valid database leaves it valid.
    The two per-step methods `AddNewReports` and `RunQuery` state their
    new state exactly instead, and their callers restore `Valid()`.
  - Each method's `ensures` gives the whole new state in terms of the
    specification functions.

Inputs that come from outside the program are parameters:

- `ScrapeReports` receives the HTTP responses of the listing pages as a
  sequence of `ListingPage(status, articles)`.
- `ExecuteQuery` receives the parsed advisory and the campaign title. The
  caller passes `soup.title.string` when the page has a `<title>` (`None`
  when that title is not a single string), and `Some("Titre non
  disponible")` when it has none.
- `ExecuteQuery` also receives `clock`. `clock(k)` is the `datetime.utcnow`
  reading stored in `execution_time` when the `k`-th history row of the
  request is inserted. Each row is committed on its own, so each row gets
  its own reading.

Where the code and its documented intent differ, the model follows the code.

- `defang` is not idempotent. `"[[.]]"` becomes `"[.]"`, which becomes
  `"."` (`DefangNotIdempotent`).
- `query.replace("$1", data_list)` has no count argument. Every `$1` is
  replaced, not just one (`ResolveOneEveryPlaceholder`).
- Only a missing date div yields the `Unknown Date` placeholder. A missing
  title link, a missing `href`, or a date div without `<time>` raises.
- A cell contributes its link target only when the `href` is non-empty.
  Otherwise it contributes its stripped string when that string is
  non-empty, and otherwise nothing. A cell of blanks therefore yields `""`.
- Reports are not unique by url. Duplicates are looked up among committed
  rows only, so two articles with the same new url on one page are both
  inserted (`SamePageDuplicates`).

## Model

| member | source | states |
|---|---|---|
| Defanging.Defang | app.py:121-122 | defanging never makes a string longer |
| Defanging.DefangNoBracket | app.py:121-122 | a string without `[` is returned unchanged |
| Defanging.DefangExample | app.py:121-122 | `1.2.3[.]4` defangs to `1.2.3.4` |
| Defanging.DotPass | app.py:122 | the first `replace` pass turns `1.2.3[.]4` into `1.2.3.4` |
| Defanging.BracketedDot | app.py:122 | `[.]` followed by bracket-free text becomes `.` followed by that text |
| Defanging.ReplaceConcatPlain | app.py:122 | a prefix free of the pattern's first character passes through `replace` untouched |
| Defanging.DefangNotIdempotent | app.py:121-122 | `[[.]]` defangs to `[.]`, which defangs to `.`: applying `defang` twice differs from applying it once |
| Text.ReplaceIsJoinSplit | app.py:122 | `s.replace(p, n) == n.join(s.split(p))` for every `s`, `p` and `n` with `p` non-empty |
| Text.ReplaceAbsent | app.py:122 | `replace` returns a string in which the pattern does not occur unchanged |
| Text.ReplaceEveryOccurrence | app.py:305 | `replace` without a count substitutes every occurrence: `"$1 or $1"` becomes `"x or x"` |
| Text.Find | app.py:298 | `find` returns an occurrence of the pattern, and no occurrence starts before it |
| Text.FindNone | app.py:298 | `find` returns `None` exactly when the pattern is not `in` the string |
| Text.StartsWithConcat | app.py:46-48 | `s.startswith(p)` holds exactly when `s` is `p` followed by the rest of `s` |
| Text.Strip | app.py:44 | `strip` never lengthens, and its result neither starts nor ends with whitespace, where whitespace is every character `str.isspace()` accepts, the separators `\x1c`-`\x1f` included |
| Text.StripSlice | app.py:44 | the result of `strip` is a slice of its input, and only whitespace of the input lies outside that slice |
| Text.StripSeparators | app.py:44 | a leading `\x1c` is stripped from `\x1c#StopRansomware: X`, as CPython strips it |
| Text.Replace | app.py:122 | `replace` with a replacement no longer than the pattern never lengthens the string; `ReplaceIsJoinSplit` gives its full meaning |
| Text.Contains | app.py:298 | `""` is `in` every string, and nothing longer than a string is `in` it |
| Text.Join | app.py:300 | `sep.join` of no pieces is `""`, of one piece is that piece, and otherwise starts with the first piece; `JoinCons` adds a piece at the front |
| Wrappers.FirstIndex | app.py:247 | `.first()` of a filter: the least index that matches, and `None` exactly when none matches |
| Scraper.ClassifyKeep | app.py:41-51 | a kept article has a span whose stripped text starts with `#StopRansomware:`; a `/` href gets `https://www.cisa.gov` prepended, any other href is kept; a missing date div gives `Unknown Date`, and a present one must hold a `<time>` whose stripped text is the date |
| Scraper.ClassifyOffTopic | app.py:44-46 | an article whose stripped title lacks the prefix is skipped |
| Scraper.Classify | app.py:42-51 | one loop iteration raises `NoTitleLink` exactly when the article has no title link; `ClassifyNoSpan`, `ClassifyOffTopic` and `ClassifyOnTopic` give its outcome for every article that has one |
| Scraper.ClassifyNoSpan | app.py:42-43 | an article whose title link has no `<span>` is skipped |
| Scraper.ClassifyOnTopic | app.py:46-51 | an article whose stripped title has the prefix raises `NoHref` without an href; with one, it is kept with the full url and `Unknown Date` when there is no date div, raises `NoTime` when the date div has no `<time>`, and is kept with the stripped `<time>` text otherwise |
| Scraper.Verdicts | app.py:41-51 | one verdict per article, in article order, each the outcome of that article's iteration |
| Scraper.Collect | app.py:41-52 | a run of iterations that completes yields at most one report per article |
| Scraper.FullUrl | app.py:48 | the href always ends the full url; a `/` href becomes `https://www.cisa.gov` followed by the href, and any other href is the url itself |
| Scraper.CollectOk | app.py:41-52 | the article loop completes exactly when no article raises |
| Scraper.CollectMembers | app.py:41-52 | a completed loop returns exactly the kept articles' reports |
| Scraper.CollectErr | app.py:41-52 | an abandoned loop reports the exception of the first malformed article |
| Scraper.CollectAppend | app.py:41-52 | the loop preserves article order: the results of a later stretch follow those of an earlier one, and the first exception wins |
| Scraper.ArticlesOk | app.py:39-52 | the extraction succeeds iff no article is malformed, and then yields exactly the kept articles |
| Scraper.Articles | app.py:39-52 | a page without articles yields no reports, and a completed loop yields at most one report per article |
| Scraper.ExtractArticles | app.py:39-52 | the loop returns the specification `Articles(nodes)`: the kept reports in order, or the first exception |
| Scraper.ExtractArticle | app.py:42-51 | one loop pass either raises, and then the whole loop raises that exception, or extends the completed prefix by the article's report, if it is kept |
| Scraper.CellValueLinkFirst | app.py:133-135 | a cell with a non-empty link target contributes that target, whatever its text |
| Scraper.CellValueEmptyHref | app.py:134-137 | a missing or empty `href` falls through to the cell's stripped text |
| Scraper.CellValueBlank | app.py:136-137 | the emptiness test precedes the strip: a cell of blanks contributes `""` |
| Scraper.CellValue | app.py:133-137 | a cell contributes nothing exactly when it has no non-empty link target and its string is missing or empty |
| Scraper.CellValueText | app.py:133-137 | a cell without a non-empty link target, with or without an `<a>`, whose string is non-empty contributes that string stripped |
| Scraper.CellValues | app.py:130-138 | at most one value per cell |
| Scraper.CellValuesAppend | app.py:132-137 | the cell loop keeps cell order, whether or not each cell contributes a value: two runs of cells give the values of the first run followed by those of the second |
| Scraper.CellValuesMembers | app.py:130-138 | every value comes from a cell, and every cell with a value contributes it |
| Scraper.CellValuesOnePerCell | app.py:130-138 | when every cell has a value, the result has one value per cell, in cell order |
| Scraper.FindHeader | app.py:126 | the first `<th>` whose string is exactly the header name, or `None` when there is none |
| Scraper.TableValues | app.py:125-139 | `[]` without a matching header or without an enclosing table; otherwise at most one value per cell |
| Scraper.ExtractDataFromTable | app.py:125-139 | the loop returns the specification `TableValues(doc, name)` |
| Scraper.NewReportsMembers | app.py:62-71 | a page adds exactly the found reports whose url no committed report has |
| Scraper.NewReports | app.py:62-72 | a page adds at most its found reports, and into an empty table it adds every one of them, same-url duplicates included |
| Scraper.NewReportsAppend | app.py:62-72 | the insertion loop keeps page order: two runs of found reports add the rows of the first run followed by those of the second |
| Scraper.Sweep | app.py:57-75 | the sweep never shrinks the reports table, and it ends with an exception only if it reads at least one page |
| Rows.UrlStoredAppend | app.py:64-65 | the `filter_by(url=...).first()` lookup finds a row in two runs of reports exactly when it finds one in either run |
| Scraper.SweepKeepsCommitted | app.py:57-75 | the sweep only appends: existing reports are never modified or removed |
| Scraper.SweepSkipsStoredUrls | app.py:62-71 | no report the sweep adds has the url of a report stored before it |
| Scraper.SweepIgnoresLaterPages | app.py:57 | responses beyond page 19 have no effect: at most 20 pages are read |
| Scraper.SweepStopsAtFailedPage | app.py:59-75 | the first non-200 page ends the sweep: nothing at or after it has any effect |
| Scraper.SamePageDuplicates | app.py:62-73 | dedup reads committed rows only, so two same-url articles on one new page are both inserted |
| Resolution.OfType | app.py:283-292 | the templates returned for a type number at most the stored ones, and all have that type |
| Resolution.OfTypeMembers | app.py:284 | the type filter keeps exactly the stored templates of that type |
| Resolution.OfTypeAppend | app.py:284 | the type filter keeps storage order |
| Resolution.SelectRelevant | app.py:281-293 | every selected template has type `domain`, `hash` or `filename` |
| Resolution.SelectRelevantMembers | app.py:281-293 | a template is selected iff its type is one of the three and indicators of that type were found |
| Resolution.SelectRelevantGrouped | app.py:281-293 | the selection lists the domain templates, then the hash templates, then the filename templates |
| Resolution.ResolveAllMembers | app.py:297-306 | a selected template yields a result iff its text contains `$1` |
| Resolution.Resolve | app.py:281-306 | without any indicators nothing is resolved; `ResolveMembers` states which templates yield a result |
| Resolution.SelectedIndicators | app.py:283-304 | a selected template is stored, has one of the three types, and the indicator list its data list is built from is non-empty |
| Resolution.ResolveMembers | app.py:281-306 | a result comes exactly from a stored template with indicators of its type and a `$1`; a template without `$1` never yields one |
| Resolution.ResolveOneEveryPlaceholder | app.py:298-305 | the resolved text is the template cut at every `$1` and glued back with the data list |
| Resolution.ResolveOne | app.py:298-306 | a resolved template keeps its id and category, and a template without `$1` would keep its text |
| Resolution.ResolveAll | app.py:297-306 | the loop yields at most one result per selected template |
| Resolution.DataList | app.py:299-304 | no indicators give the empty data list, and one indicator gives that indicator defanged |
| Resolution.DataListNoBrackets | app.py:299-304 | indicators without brackets are joined with `\|` exactly as they are |
| Resolution.ResolveAllAppend | app.py:297-306 | the resolution loop keeps selection order: resolving two runs of templates back to back gives the results of the first run followed by those of the second |
| Resolution.DataListPlain | app.py:299-304 | two bracket-free indicators are joined as `a\|b` |
| Resolution.SubstituteTail | app.py:305 | a template ending in its only `$1` gets the data list in that place |
| Resolution.ResolveSingle | app.py:281-306 | a lone template with indicators of its type and a `$1` yields exactly one result |
| Resolution.ResolveOneTail | app.py:299-305 | a domain template `<prefix>$1` resolves to the prefix followed by the domain data list |
| Resolution.ResolveFind | app.py:281-306 | a lone domain template `find $1` resolves to `find ` followed by the domain data list |
| Resolution.ResolveTwoDomains | app.py:281-306 | with two bracket-free domains `a` and `b`, `find $1` resolves to `find a\|b` (for example `find a.com\|b.com`) |
| Store.WellFormedEntryKeys | app.py:214 | an imported entry is accepted exactly when its keys include `query`, `tag`, `query_type` and `category` |
| Store.EntryQuery | app.py:215-220 | an accepted entry becomes a template with the given id, whose text, tag, type and category are the entry's `query`, `tag`, `query_type` and `category` values |
| Store.ExecutionRows | app.py:309-317 | a run of results records exactly one history row per result |
| Store.ExecutionRowsAt | app.py:309-316 | history row `k` of a run records result `k` under id `first + k`, with the advisory url, the template id, the resolved text, the page title, the category and the clock reading of its own insert |
| Store.RecordedRowsOrdered | app.py:309-317 | rows recorded under the next ids keep the history ordered by id |
| Store.RemoveExecution | app.py:341-345 | removing a row keeps the history ordered and removes exactly the rows with that row's id |
| Store.Database.constructor | app.py:118 | the three tables start empty |
| Store.Database.ScrapeReports | app.py:55-75 | the new reports table and the failure are the specification `Sweep` from page 0; the other tables are unchanged |
| Store.Database.AddNewReports | app.py:62-73 | one page appends the found reports whose url is not yet committed, in page order |
| Store.Database.StoreQuery | app.py:155-158 | the new template gets the next id and is appended; ids stay ordered |
| Store.Database.ImportQueries | app.py:212-227 | the import succeeds iff every entry has the four keys; on success the entries are appended in array order under consecutive ids, otherwise nothing changes |
| Store.Database.UpdateQuery | app.py:247-255 | the template with that id gets the new text, tag and type, its id and category are kept, every other template is unchanged; an unknown id reports not found and changes nothing |
| Store.Database.ExecuteQuery | app.py:276-317 | the results are `Resolve` of the stored templates with the three extracted tables, and the history grows by exactly one row per result |
| Store.Database.RunQueries | app.py:281-317 | the resolution loop returns `Resolve(...)` and appends `ExecutionRows` of its results under consecutive ids |
| Store.Database.RunQuery | app.py:297-317 | one loop pass extends both the results and the history by the contribution of one template |
| Store.Database.DeleteExecution | app.py:341-345 | found iff a row has that id; then exactly that row is removed and the rest keep their order; otherwise nothing changes |
| Store.Database.DeleteAllHistory | app.py:352-353 | the history is empty and the other tables are unchanged |

## Left out

- Flask routes, `render_template`, `flash`, `redirect` and JSON responses are presentation only. The export and list routes and the GET form pages only read or display tables.
- `requests.get`, `raise_for_status` and `time.sleep(2)` are network I/O and a clock. Listing responses are an input sequence, and a page missing from it counts as a non-200 response.
- `scrape_reports` fetches each listing page twice, once for the status and once inside `extract_stop_ransomware_articles`. The model uses one response per page, so a second fetch that fails is not modelled.
- BeautifulSoup's parsing is a foreign library. Its results are datatypes, and the campaign title is a parameter.
- The `except Exception` handler of `execute_query` and failures of the advisory fetch are not modelled.
- `json.load`, the upload checks, and entries that are not objects or carry non-string values are JSON handling. Entries are modelled as `map<string, string>`.
- Store.Database.ImportQueries: does not model the scoped session. Entries added before an invalid one stay pending in the thread's session, and a later commit in the same thread can store them.
- Store.Database.DeleteExecution, Store.Database.DeleteAllHistory: do not model SQLite's rowid reuse. Execution ids come from a counter that never goes back. SQLite gives the next row the largest remaining id plus one, so after deleting the newest row, or the whole history, an id is handed out again (from 1 after an emptied table). Template and report ids are not affected, since nothing deletes templates or reports, and report ids are not modelled at all, since nothing reads them.
- `execution_time` defaults to `datetime.utcnow`, a clock. The model takes the readings as the parameter `clock`, one reading per inserted row, and says nothing about how readings relate to each other.
- Text.Replace: requires a non-empty pattern. Every call site uses a non-empty literal, so Python's empty-pattern behaviour is not modelled.
- `update_query` does not check `query_type`. The model likewise lets an update give a template any type.
- `test.py` is a network script outside the application.
