# tv-crawler: a verified model of the dedup-and-crawl core

tv-crawler searches the TVer streaming site for episodes that match one or
more keywords. It downloads the episodes it has not fetched before and
records each downloaded URL in a local SQLite ledger, so that later runs
skip them. This Dafny project models the control flow that decides what is
downloaded and what is persisted. The modules are:

- `Common` (common.dfy): option and result values, and the three failure
  kinds: storage, resolution and download.
- `Ledger` (ledger.dfy): the database connection as a class `Store`. It has
  the committed URL set, the URLs inserted since the transaction began
  (`pending`), and whether a transaction is open. Its operations are
  init (apply the schema, then BEGIN), the URL SELECT, INSERT, commit and
  rollback.
- `Search` (search.dfy): the keyword join, the search URL, the loop that
  collects the `href` of each episode anchor, and the deduplication of
  `list(set(...))`. The browser is a function parameter. It maps the
  requested URL to the list of optional `href` attributes, or to `None`
  when the results container is missing.
- `Filter` (filter.dfy): the order-preserving set difference between the
  candidates and the ledger.
- `Crawler` (crawler.dfy): the loop that downloads each worklist URL and
  then inserts it. The downloader is a function parameter that says
  whether a download succeeds. The calls the loop makes are returned as a
  trace of download and insert events.
- `Orchestrator` (orchestrator.dfy): one run. It does init, search, filter
  and crawl, then commits and exits with 0, or rolls back and exits with 1.

The order of `list(set(lst_url))` is unspecified. `Search.Search`
deduplicates with `Search.Distinct`, but its contract promises only a
duplicate-free listing of the collected hrefs, not an order. Every later
property holds for any such order.

The SELECT in the filter runs on the connection that will later hold this
run's inserts, so `Store.KnownUrls` returns the committed rows together
with the pending ones. `Orchestrator.Run` proves that nothing is pending
when the filter reads the ledger, so the filter compares against exactly
the rows committed before the run.

The Python sqlite3 driver issues BEGIN by itself before an INSERT when no
transaction is open. `Store.Record` models this, so it needs no open
transaction. `Store.Init` fails when the schema cannot be applied. It also
fails when a transaction is already open, because SQLite refuses a nested
BEGIN.

## Model

| member | source | states |
|---|---|---|
| `Ledger.Store.constructor` | main.py:173 | a freshly opened connection holds exactly the stored URLs, with nothing pending and no transaction open |
| `Ledger.Store.Init` | main.py:58-70 | fails with a storage error, changing nothing, when the schema cannot be applied or a transaction is already open; otherwise opens the transaction and leaves the rows unchanged |
| `Ledger.Store.Record` | main.py:160-163 | appends the URL to the pending inserts, leaves committed rows unchanged, and leaves a transaction open |
| `Ledger.Store.Commit` | main.py:188 | the committed set becomes the old committed set plus every pending URL; nothing stays pending |
| `Ledger.Store.Rollback` | main.py:192 | discards every pending URL and leaves the committed set unchanged |
| `Search.SearchUrl` | main.py:82-83 | the request URL starts with the template prefix `https://tver.jp/search/` (main.py:28), and for one or more space-free keywords, splitting the rest of the URL at its spaces gives the keywords back |
| `Search.SplitJoin` | main.py:82 | for one or more keywords without spaces, splitting the joined string at its spaces gives the keywords back, so exactly one space separates neighbours |
| `Search.SearchUrlInjective` | main.py:82-83 | two lists of one or more space-free keywords with the same search URL are equal |
| `Search.HrefsMembership` | main.py:100-106 | a URL is collected exactly when some anchor carries it as a string `href`; anchors without one contribute nothing |
| `Search.CollectHrefs` | main.py:100-106 | the loop's result holds exactly the string `href`s of the anchors, in page order |
| `Search.Distinct` | main.py:112 | the deduplication of the collected URLs is duplicate-free and holds exactly the elements of its input |
| `Search.Search` | main.py:72-112 | for a page without a results container, fails with a resolution error; otherwise returns a duplicate-free list holding exactly the anchors' string `href`s, for the page requested at the search URL of the keywords |
| `Filter.UrlFilter` | main.py:136 | a URL is in the worklist exactly when it is a candidate and not in the ledger set; the worklist is no longer than the candidates |
| `Filter.UrlFilterKeepsOrder` | main.py:136 | the worklist is a subsequence of the candidates, so input order is kept |
| `Filter.UrlFilterAppend` | main.py:136 | filtering a concatenation is the concatenation of the filtered parts |
| `Filter.UrlFilterNoDups` | main.py:136 | duplicate-free candidates give a duplicate-free worklist |
| `Filter.UrlFilterCovers` | main.py:136 | the ledger set plus the worklist equals the ledger set plus the candidates |
| `Filter.UrlFilterAllKnown` | main.py:133-136 | when every candidate is already in the ledger, the worklist is empty |
| `Filter.FilterExample` | main.py:136 | candidates `u1, u2, u3` against ledger `{u2}` give `u1, u3` |
| `Filter.FilterAgainst` | main.py:115-140 | the worklist is the candidates filtered against the rows the connection sees, and holds no committed or pending URL |
| `Crawler.FirstFailure` | main.py:158-159 | the number of URLs downloaded before the crawl stops: every earlier download succeeds, and the download at that index, if any, fails |
| `Crawler.CrawlInsertsPrefix` | main.py:158-163 | the URLs a crawl inserts are exactly the worklist before the first failing download, in worklist order |
| `Crawler.CrawlAttemptsInOrder` | main.py:158-159 | a crawl tries to download the worklist in order, up to and including the first failing URL, and none after it |
| `Crawler.InsertFollowsDownload` | main.py:158-163 | every insert comes immediately after the successful download of the same URL |
| `Crawler.CrawlStopsAtFailure` | main.py:158-159 | a crawl that fails ends with that failed download, after two events per earlier URL |
| `Crawler.Crawl` | main.py:143-163 | the calls made are the crawl trace; if the k-th download (0-based) fails, the crawl fails with a download error for that URL and exactly the first k URLs are appended to the pending inserts; otherwise every URL is appended and the crawl passes; committed rows are unchanged |
| `Orchestrator.Run` | main.py:166-196 | the run commits exactly when the schema applies, the results container is found and every worklist download succeeds, and then the ledger becomes the old ledger plus the worklist. A failure in init, search or crawl rolls back, leaves the ledger unchanged, and names the failing stage. The exit status is 0 exactly when the run commits and 1 exactly when it rolls back. The worklist holds each new href on the page once. No URL is inserted twice, and none was already committed. Nothing is left pending |
| `Orchestrator.RunTwice` | main.py:174-190 | after a committed run, a second run over the same results page has an empty worklist and commits; the ledger then holds the old URLs plus every href on the page |

## Left out

- The headless browser (Chrome options, `driver.get`, the five-second
  sleep, the CSS selectors, `driver.quit`) is replaced by the `browse`
  parameter. The real browser is not released when the results container
  is missing, because `driver.quit` is skipped when `find_element` raises.
  The model does not capture that resource leak.
- yt-dlp and its output template are replaced by the `download`
  parameter. The model assumes a URL's download outcome is fixed within
  one run. Each URL is attempted at most once per run anyway.
- SQLite internals, the DDL file and the SQL text are replaced by
  `Ledger.Store`. An INSERT, a SELECT and a commit cannot fail in the
  model. The unique constraint lives in a schema file that is not part of
  this model. `Orchestrator.Run` proves that no run inserts a URL twice or
  inserts a committed URL, so that constraint cannot fire for the worklist.
- Argument parsing (`get_args`, `AppArgs`), `debug_print`, the clock and
  the progress prints are not modelled. The output directory only feeds
  the download template.
- Error reporting is not modelled. The source writes
  `print(..., file := sys.stderr)`. That binds a variable and passes the
  stream as a second positional value, so the failure message goes to
  standard output, not to the error stream as intended.
