# E-mail extractor: verified model

This project models the logic at the heart of a small e-mail extraction tool. The
tool takes a spreadsheet of keywords and runs a web search for each keyword. It
scrapes every page the search returns for e-mail addresses and social-media links,
and stores every newly found address in a PostgreSQL table that has a size ceiling.
It also builds the filtered query behind its history view.

The model consists of four Dafny modules:

- `Wrappers` (`wrappers.dfy`): `Option`, standing in for Python's `None`.
- `ScraperEmail` (`scraper_email.dfy`) models `scraper_email.py`:
  - the denylist validator;
  - the derivation of a website from an address;
  - the part of `scrape_page` after the fetch, a loop over the regex candidates;
  - the first-seen-wins fold of `search_and_extract_emails` over the search hits.

  The HTTP fetch, the HTML-to-text step and the regular-expression engine are
  inputs. A fetch either raises (`FetchRaised`) or yields a `Response` carrying:
  - the status code;
  - the e-mail candidates found in the visible text;
  - the first LinkedIn match and the first Facebook match in the raw markup.

  The address pattern is stated as a shape predicate (`EmailShape`). It is an
  ad-hoc pattern and not the addr-spec of RFC 5322.
- `DatabasePg` (`database_pg.dfy`) models `database_pg.py`:
  - the `extracted_emails` table as a `Table` (rows plus the next value of the SERIAL sequence);
  - a `Store` class holding that table, with `insert_email` and `truncate_database` as methods;
  - the builder of `search_emails`, as a method returning the query text and the parameter list.

  What each insert meets from the outside is a `Probe`:
  - the measured database size, in thousandths of a gigabyte;
  - the clock;
  - the first database call that raises, if any.
- `App` (`app.py`:66-113) models the Start Email Extraction action:
  - the keyword column reduced to its distinct non-null values;
  - one search per keyword;
  - the items lacking an address or a source URL are skipped;
  - every other item is offered to the store;
  - only the rows reported as inserted are collected.

  The search backend is a function from query to hits. The n-th insert call of a
  run meets `probe(n)`. `RunKeywords` is the loop as a function of those inputs.
  `ExtractEmails` is proved equal to it.

The model follows the code:
- there is no address length check, no homoglyph check and no lower-casing of stored
  addresses, so duplicate detection is exact-string;
- there is no contact-page fallback;
- exceptions from the search backend are not caught;
- the table has only `id, keyword, email, source, created_at`.

## Model

| member | source | states |
|---|---|---|
| ScraperEmail.Contains | scraper_email.py:22 | Python's substring test: true exactly when the pattern occurs at some position of the string |
| ScraperEmail.Lower | scraper_email.py:21 | `email.lower()` on ASCII: the same length, each character lower-cased in place, and no upper-case letter left |
| ScraperEmail.AnyBad | scraper_email.py:22 | true exactly when some denylist entry occurs in the string |
| ScraperEmail.IsValidEmail | scraper_email.py:14-24 | an address is valid exactly when no BAD_CONTEXT entry occurs in its lower-cased form |
| ScraperEmail.LowerIdempotent | scraper_email.py:21 | lower-casing twice is lower-casing once |
| ScraperEmail.ValidationIgnoresCase | scraper_email.py:20-24 | an address and its lower-cased form get the same verdict |
| ScraperEmail.ValidationAgreesUpToCase | scraper_email.py:20-24 | two addresses equal up to ASCII case get the same verdict |
| ScraperEmail.Split | scraper_email.py:29 | `split('@')` yields at least one piece, no piece holds the separator, and joining the pieces restores the string |
| ScraperEmail.SplitAtFirstSeparator | scraper_email.py:29 | splitting cuts at the first separator: the separator-free head is the first piece |
| ScraperEmail.GetWebsiteFromEmail | scraper_email.py:27-31 | the website is empty exactly when the address has no `@` (the IndexError branch); otherwise it is "https://" followed by `@`-free text |
| ScraperEmail.WebsiteIsFirstDomain | scraper_email.py:27-31 | for any address with an `@`, the website is "https://" followed by the text between the first `@` and the next `@` or the end |
| ScraperEmail.ShapedEmailWebsite | scraper_email.py:27-31 | for a candidate of the EMAIL_REGEX shape, the website is "https://" followed by its whole domain |
| ScraperEmail.EmailShape | scraper_email.py:10 | the shape of an EMAIL_REGEX match: a run of local-part characters, one `@`, a run of domain characters, a dot, and at least two letters |
| ScraperEmail.ScrapePage | scraper_email.py:34-60 | a raised fetch or a non-200 status gives no e-mails and no links; otherwise the e-mails are exactly the valid candidates, with their casing kept, and each link is the first match of its pattern or None, independently; candidates of the regex shape give results of that shape |
| ScraperEmail.SearchQuery | scraper_email.py:65 | the query sent for a keyword: the keyword followed by " contact email" |
| ScraperEmail.SearchQueryInjective | scraper_email.py:65 | distinct keywords give distinct search queries |
| ScraperEmail.HitUrl | scraper_email.py:69-71 | `r.get("href") or r.get("url")`: the href when it is truthy, otherwise the url when it is truthy, otherwise nothing, so the hit is skipped |
| ScraperEmail.FirstHitFrom | scraper_email.py:68-77 | the first hit from a position whose URL is truthy and whose page yields the e-mail, or the end |
| ScraperEmail.SearchAndExtractEmails | scraper_email.py:63-87 | the result holds no e-mail twice; each entry carries the URL and links of the first hit that yielded its e-mail and the website derived from the e-mail; every e-mail yielded by a hit with a URL is present; entries follow the order of their first hits; hits without a URL contribute nothing |
| ScraperEmail.RecordPage | scraper_email.py:75-83 | one page's e-mails extend the result without changing earlier entries, keep the first-seen attribution, and make every e-mail of this page present |
| ScraperEmail.FirstYieldingHit | scraper_email.py:75-77 | an e-mail found on the current page and not yet a key was not yielded by any earlier hit |
| ScraperEmail.RecordExtends | scraper_email.py:76-83 | adding a new key's entry keeps the e-mails distinct, the attribution to first hits and the hit order |
| DatabasePg.Wiped | database_pg.py:80-82 | the size check succeeded, the size is at or above the ceiling, and the truncation committed, so the old rows are gone |
| DatabasePg.InsertRow | database_pg.py:88-96 | INSERT ... ON CONFLICT (email) DO NOTHING RETURNING id: a row is returned exactly when the e-mail was absent; afterwards the e-mail is present, the sequence has advanced by one, and the table's integrity holds |
| DatabasePg.InsertEmailSpec | database_pg.py:69-105 | once the size reaches the 0.45 GB ceiling and the truncation commits, at most the new row remains, with id 1; otherwise the rows are unchanged or grow by exactly the new row; `truncated` holds exactly when the truncation committed and `truncate_database` did not raise afterwards; `inserted` holds exactly when the INSERT ran and the e-mail was absent after any truncation; a failed call keeps the flags set so far; e-mails stay unique |
| DatabasePg.InsertTwiceAddsOnce | database_pg.py:88-96 | two fault-free inserts of the same new address under the ceiling insert it once and add one row |
| DatabasePg.WipedButNotFlagged | database_pg.py:56-83 | a truncation that commits and then raises while closing leaves the table empty, yet the call returns neither `truncated` nor `inserted` |
| DatabasePg.TableValid | database_pg.py:25-31 | the table's integrity: `email` is UNIQUE, the SERIAL ids increase along the rows, and every id handed out is below the next sequence value, which is at least 1 |
| DatabasePg.Store.constructor | database_pg.py:20-31 | the created table is empty and its sequence starts at 1 |
| DatabasePg.Store.TruncateDatabase | database_pg.py:56-64 | TRUNCATE ... RESTART IDENTITY: no rows remain and the sequence restarts at 1 |
| DatabasePg.Store.InsertEmail | database_pg.py:69-105 | the step-by-step insert leaves the table and returns the flags that InsertEmailSpec gives, and keeps the table's integrity |
| DatabasePg.Store.ExecuteInsert | database_pg.py:85-100 | the INSERT draws a sequence value either way, and the staged row is kept only when the transaction commits |
| DatabasePg.AddIfKeepsOrder | database_pg.py:116-134 | a conditionally appended filter that outranks the earlier ones keeps them in order and is present exactly when switched on |
| DatabasePg.Filters | database_pg.py:116-134 | the filters the arguments switch on: keyword, email and source when non-empty, each date when present and non-empty, in that order |
| DatabasePg.FiltersSorted | database_pg.py:116-134 | the filters come in the order keyword, email, source, date_from, date_to |
| DatabasePg.FiltersFromArguments | database_pg.py:116-134 | every filter comes from the truthy argument of its kind |
| DatabasePg.FiltersCoverArguments | database_pg.py:116-134 | every truthy argument switches on its filter |
| DatabasePg.ClauseHead | database_pg.py:117-133 | the SQL condition text before each placeholder is non-empty and holds no `%` |
| DatabasePg.Clause | database_pg.py:117-133 | the condition a filter appends: its SQL text followed by the `%s` placeholder |
| DatabasePg.Param | database_pg.py:118-134 | keyword, email and source parameters are wrapped in `%` for substring ILIKE |
| DatabasePg.Clauses | database_pg.py:116-134 | the conditions of a list of filters, concatenated in order |
| DatabasePg.Params | database_pg.py:116-134 | the parameters of a list of filters, in order |
| DatabasePg.PlaceholdersAppend | database_pg.py:113-136 | placeholder counts add across a concatenation whose left part does not end in `%` |
| DatabasePg.NoPercentNoPlaceholder | database_pg.py:113 | text without `%` holds no placeholder |
| DatabasePg.ClausePlaceholder | database_pg.py:117-133 | each appended condition holds exactly one `%s` |
| DatabasePg.Extend | database_pg.py:116-134 | one more filter appends its condition to the query and its parameter to the list |
| DatabasePg.ClausesPlaceholders | database_pg.py:116-134 | the conditions hold one placeholder per filter |
| DatabasePg.QueryPlaceholders | database_pg.py:113-136 | a query framed by placeholder-free text holds one placeholder per filter |
| DatabasePg.SearchEmails | database_pg.py:110-136 | the built query is the `WHERE 1=1` base, the conditions of the switched-on filters in argument order, and the newest-first ordering; the parameter list is those filters' parameters |
| DatabasePg.AppendIf | database_pg.py:116-134 | one `if v: query += ...; params.append(...)` step appends exactly when switched on |
| DatabasePg.Step | database_pg.py:116-134 | one conditional builder step as a value: the clause and parameter appended when switched on, the builder unchanged otherwise |
| DatabasePg.Rendered | database_pg.py:116-134 | the five steps of the builder render exactly the filters the arguments switch on |
| DatabasePg.ParamsLength | database_pg.py:116-134 | one parameter per filter |
| DatabasePg.Finished | database_pg.py:113-136 | a framed query starts with its head, ends with its tail and holds one placeholder per filter |
| DatabasePg.QueryShape | database_pg.py:113-136 | the query starts with the `WHERE 1=1` base, ends with ORDER BY created_at DESC, and holds as many `%s` placeholders as there are parameters |
| DatabasePg.ParamsAddIf | database_pg.py:116-134 | a conditionally appended filter contributes its parameter exactly when switched on |
| DatabasePg.SearchParams | database_pg.py:116-134 | the parameter list is "%keyword%", "%email%", "%source%", date_from and date_to, each present exactly when its argument is truthy, in that order |
| App.IndexOf | app.py:68 | the first position of a value in a sequence, or the length when the value is absent |
| App.DistinctKeywords | app.py:68 | `dropna().unique()`: the keywords are distinct and are exactly the non-null cell values |
| App.KeywordsInFirstOccurrenceOrder | app.py:68 | the keywords are in the order of their first occurrence in the column |
| App.Eligible | app.py:88-89 | an item is offered to the store when both its e-mail and its source URL are non-empty |
| App.ItemStep | app.py:81-111 | one pass over an item: an ineligible item changes nothing; otherwise one store call, with the row collected when the call reports it inserted |
| App.RunItems | app.py:80-111 | the loop over one keyword's items, as steps applied in item order |
| App.RunKeywords | app.py:70-113 | the loop over the keywords, each keyword's items run after the earlier keywords |
| App.RowCollectedIffInserted | app.py:88-111 | an item without an address or source URL changes nothing and makes no call; otherwise the store is called once, and the row is collected exactly when the call reports `inserted` |
| App.OneCallPerEligibleItem | app.py:80-98 | the loop over a keyword's items calls the store once per item with both an address and a source URL |
| App.ItemRowsInOrder | app.py:80-111 | the item loop keeps earlier rows, and its new rows carry the keyword and follow the item order |
| App.RowsInOrderStep | app.py:91-111 | a step that collects nothing or one row of the keyword keeps the rows in item order |
| App.ResultsInKeywordOrder | app.py:70-113 | `all_results` keeps earlier rows, and its rows carry keywords of the list in non-decreasing keyword position |
| App.CleanStep | app.py:91-111 | an item whose call meets no ceiling and no failed commit keeps the collected addresses distinct, stored, and new |
| App.CleanItems | app.py:80-111 | the item loop keeps the collected addresses distinct, stored and new when all its calls are clean |
| App.CleanKeywords | app.py:70-113 | the keyword loop keeps the collected addresses distinct, stored and new when all its calls are clean |
| App.CallsGrow | app.py:70-113 | the number of store calls never decreases over the loop |
| App.NoDuplicatesInCleanRun | app.py:66-113 | if no call of a run meets the ceiling or a failed commit, `all_results` holds no address twice, and every address it holds is stored at the end and was absent at the start |
| App.ExtractEmails | app.py:59-113 | extraction starts exactly when the sheet has a `keyword` column; progress advances once per distinct keyword, including keywords with no results; every keyword's items are what the search returned for its query; the final table and `all_results` are those of the loop run on these inputs |
| App.ProcessKeyword | app.py:71-113 | one keyword's search result satisfies the extraction guarantees, and the store and rows after it are those of the item loop |
| App.RunKeywordsSnoc | app.py:70-113 | the loop over one more keyword runs that keyword's items after the earlier keywords |
| App.InsertItems | app.py:80-111 | the loop over a keyword's items leaves the store and the rows that the item loop gives |

## Left out

- HTTP requests, BeautifulSoup's `get_text` and the regular-expression engine: a fetch is an input carrying the status, the visible-text candidates and the first social matches.
- The `max_results=5` cap of the search client and the client itself: the hits for a query are an input (`backend`).
- Exceptions raised by the search client: the code does not catch them, and the model has no backend failure.
- `time.sleep(1)` between hits: timing only.
- Python's iteration order over a page's e-mail set: the model adds them in any order, so the order of entries from the same page is unspecified.
- Lower-casing covers only the ASCII letters. Python also lower-cases other letters, but none of the denylist entries can be matched by a lowered non-ASCII letter, so the verdicts agree.
- `get_database_size_gb`: the connection and the float rounding are not modelled; the size is an input, in whole thousandths of a gigabyte, compared against 450.
- Connections, cursors and transactions are represented only by the point at which a call of `insert_email` raises (`Fault`), including a truncation that raises after its commit. The `print("DB ERROR:", e)` in the exception handler is console output and is not modelled.
- A commit that raises after the INSERT ran leaves `inserted` true although the row was rolled back; the model keeps this behaviour of the code and does not promise that the row is stored.
- Executing the history query (`pd.read_sql`) and PostgreSQL's ILIKE and date-cast semantics: only the query text and parameters are built.
- The `init_db` DDL is the `Row` type and the empty table; table creation itself is not modelled.
- App.ExtractEmails: the call at app.py:91-98 passes six arguments to an `insert_email` that takes three, which would raise TypeError at the first eligible item; the model uses the three-argument insert the store defines and does not invent website or social columns.
- App.ExtractEmails: the button press and the sheet upload are not modelled; extraction starts when the column is present.
- The Streamlit interface (sidebar, messages, warnings, dataframe display) and the Excel read and export.
- Progress as a float fraction: the model counts completed keywords.
- Non-string values in the `keyword` column: cells are optional strings.
