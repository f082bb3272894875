# EDGAR filing monitor — a Dafny model

This project models the backend core of an SEC EDGAR filing tracker:

- **the EDGAR client** (`backend/scraper.py`). `get_cik` resolves a ticker to its
  zero-padded CIK (Central Index Key) through the SEC ticker table.
  `get_recent_filings` turns the column arrays of a company's submissions
  document (`filings.recent`) into at most ten filing records, each with an
  archive URL. `get_filing_text` caps a filing's text at 100,000 characters.
- **the change monitor** (`backend/monitor.py`). It keeps the set of tracked
  tickers and, per ticker, the accession number of the newest filing seen so far.
  `add_ticker_to_monitor` tracks a ticker and seeds that baseline.
  `check_updates`, one polling tick, reports a ticker whose newest filing differs
  from its baseline and then stores the newest accession number.

Files:

- `wrappers.dfy`: `Option`.
- `text.dfy`: the Python string operations the client relies on: `upper`,
  `zfill`, `str(int)`, `int(str)`, `replace("-", "")`.
- `scraper.dfy`: module `Scraper`. The HTTP responses are inputs. `Edgar` holds
  the ticker table and the submissions document per CIK. `Fetch.Unavailable`
  covers a failed request and an undecodable body.
- `monitor.dfy`: module `Monitor`. The class `FilingMonitor` holds the two stores
  as fields. The pure functions `Seed`, `AfterTick` and `Changes` specify its
  methods, and the lemmas state the tick's properties over those functions. The
  filings query is the input `query: string -> QueryResult`, where `Raised`
  stands for an exception escaping `get_recent_filings`. `LiveQuery` is the real
  query: `get_recent_filings` with no filter, which catches every error, so
  `Raised` never happens with it.

The source only logs a detected change (`backend/monitor.py:29-30`).
`CheckUpdates` returns each logged `(ticker, filing)` pair instead.

Behaviour of the code worth knowing:

- `get_cik` returns `None` both for an unknown ticker and for a failed request
  (`backend/scraper.py:33-37`). The two cases are not distinguished.
- `add_ticker_to_monitor` on a ticker that is already tracked seeds its baseline
  again (`backend/monitor.py:46-51`). `SeedSuppressesFirstTick` shows the
  consequence: a filing that arrived since the last tick is then never reported.
- On every tick whose query returns filings, the stored accession number is
  overwritten (`backend/monitor.py:23-24,35`). Nothing checks that the new one is
  newer, so the baseline can move backwards.
- The test `if last_known and ...` treats an empty-string baseline like no
  baseline (`backend/monitor.py:29`, `HasBaseline`).

## Model

| member | source | states |
|---|---|---|
| Text.Upper | backend/scraper.py:28 | the result has the input's length and contains no lower-case ASCII letter; an ASCII lower-case letter becomes its capital and every other character stays as it is |
| Text.ZFill | backend/scraper.py:31-32 | the result is `max(width, len(s))` long, ends with `s` and is zeros before it; padding digits gives digits |
| Text.Decimal | backend/scraper.py:32 | `str(n)` is a non-empty string of digits with no leading zero unless `n` is 0 |
| Text.ParseDecimal | backend/scraper.py:78 | `int(s)` of a digit string of length k is below 10^k; its value is pinned down by ParseDecimalOfDecimal and ParseIgnoresLeadingZeros |
| Text.ParseDecimalOfDecimal | backend/scraper.py:78 | `int(str(n)) == n` |
| Text.ParseIgnoresLeadingZeros | backend/scraper.py:78 | `int` reads a string with leading zeros as the same number as without them |
| Text.ParseZFilledDecimal | backend/scraper.py:78 | `int(str(n).zfill(w)) == n` for every width |
| Text.RemoveDashes | backend/scraper.py:77 | the result contains no dash, is as much shorter than the input as the input has dashes, and equals the input when the input has no dash |
| Text.RemoveDashesAppend | backend/scraper.py:77 | dash removal distributes over concatenation, so it keeps the other characters in their order |
| Text.RemoveDashesDropsDash | backend/scraper.py:77 | a lone dash is removed; with RemoveDashesAppend and the identity on dash-free strings this determines the function |
| Scraper.CikFor | backend/scraper.py:28-37 | a CIK found in the table has at least 10 characters, all digits |
| Scraper.Cik | backend/scraper.py:17-37 | `get_cik` given the ticker-table response: `None` when the request failed, else the lookup of the upper-cased ticker, which is 10+ digits when found (first-match behaviour: CikForIsFirstMatch, FirstMatchGivesCik) |
| Scraper.CikForIsFirstMatch | backend/scraper.py:29-32 | a CIK is returned only for the first entry whose ticker equals the upper-cased input, and it is that entry's `cik_str` zero-padded to 10 |
| Scraper.FirstMatchGivesCik | backend/scraper.py:29-32 | the first matching entry with a `cik_str` determines the result, whatever follows it |
| Scraper.NoMatchGivesNone | backend/scraper.py:33-34 | a well-formed table with no matching entry gives `None` |
| Scraper.MalformedEntryGivesNone | backend/scraper.py:30-37 | an entry without a `ticker` key, reached before any match, gives `None` (the KeyError is caught) |
| Scraper.PaddedCikDigits | backend/scraper.py:31-32 | the padded CIK has at least 10 digits and reads back as the table's number |
| Scraper.GetCik | backend/scraper.py:17-37 | the linear search returns what `Cik` specifies: `None` on a failed request, else the lookup of the upper-cased ticker; a found CIK is 10+ digits |
| Scraper.ArchiveUrlUsesUnpaddedCik | backend/scraper.py:74-78 | the URL is the archive base, the unpadded CIK number, the accession number without dashes and the primary document, joined by `/` |
| Scraper.ArchiveUrl | backend/scraper.py:77-78 | the f-string URL with `int(cik)` and the dash-free accession number; its shape for a padded CIK is stated by ArchiveUrlUsesUnpaddedCik |
| Scraper.Admits | backend/scraper.py:65-67 | the form filter: a row is kept unless `filing_type` is non-empty and differs from its form; what it keeps is stated by RecentFilings and ScanTakesFirstAdmitted |
| Scraper.Row | backend/scraper.py:69-88 | a built record carries the row's form, the caller's ticker and the CIK |
| Scraper.Scan | backend/scraper.py:60-94 | a successful scan yields at most `room` records, each admitted by the form filter and carrying the caller's ticker and CIK |
| Scraper.RecentFilings | backend/scraper.py:39-98 | at most 10 records; with a non-empty `filing_type` every record has that form; every record has the caller's ticker and the CIK `get_cik` gives |
| Scraper.GetRecentFilings | backend/scraper.py:39-98 | the loop with `continue`, `break` at 10 and early `[]` returns computes exactly `RecentFilings` |
| Scraper.ScanTakesFirstAdmitted | backend/scraper.py:64-92 | on complete columns the scan is exactly the first `room` rows the filter admits, in column order |
| Scraper.RecentFilingsAreFirstAdmitted | backend/scraper.py:61-94 | when the lookup and request succeed and the columns are complete, the listing is the first 10 admitted rows in source order |
| Scraper.IncompleteRowVoidsScan | backend/scraper.py:64-72 | with no filter, a row missing a column reached before the limit voids the whole scan |
| Scraper.ShortColumnGivesNoFilings | backend/scraper.py:62-98 | with no filter, a column shorter than `accessionNumber` within the first 10 rows makes the result `[]`, never a partial list |
| Scraper.NothingToListGivesNoFilings | backend/scraper.py:44-58 | an unresolved ticker, a failed submissions request or an empty `filings.recent` give `[]` |
| Scraper.FilingText | backend/scraper.py:100-119 | the result is at most 100,000 characters; it is a prefix of the extracted text, of length `min(len, 100000)`, and `""` when fetching failed |
| Monitor.AfterTick | backend/monitor.py:20-38 | a tick keeps every stored baseline key and adds keys only for processed tickers |
| Monitor.Seed | backend/monitor.py:49-51 | seeding adds the ticker's key only when the query returned filings and leaves every other ticker's baseline as it was (the stored value: FilingMonitor.AddTicker) |
| Monitor.HasBaseline | backend/monitor.py:27-29 | `last_known` is truthy: a stored, non-empty accession number; its role in reporting is stated by ChangeIffNewAccession |
| Monitor.IsChange | backend/monitor.py:27-29 | the reporting condition of one ticker; stated in both directions by ChangeIffNewAccession |
| Monitor.Changes | backend/monitor.py:29-30 | the pairs a tick logs; ChangeIffNewAccession states exactly which pairs these are, and FilingMonitor.CheckUpdates that a tick reports them |
| Monitor.FilingMonitor.constructor | backend/monitor.py:10-13 | both stores start empty |
| Monitor.FilingMonitor.AddTicker | backend/monitor.py:45-54 | the ticker is tracked whatever the query did; the baseline becomes the first filing's accession number when the query returned filings, and the map is unchanged after an exception or an empty list; baselines stay within the tracked set |
| Monitor.FilingMonitor.CheckUpdates | backend/monitor.py:15-38 | the tracked set is unchanged; the new baselines are `AfterTick`; the reported pairs are exactly `Changes`, one at most per ticker |
| Monitor.ChangeIffNewAccession | backend/monitor.py:26-32 | `(t, f)` is reported iff `t` is tracked, has a non-empty baseline, its query returned filings, `f` is the first and its accession number differs from the baseline |
| Monitor.TickStoresNewest | backend/monitor.py:34-35 | a ticker whose query returned filings stores `filings[0]`'s accession number, whether or not a change was reported |
| Monitor.TickKeepsBaseline | backend/monitor.py:20-38 | a ticker whose query raised or returned nothing, or that is not tracked, keeps its baseline or its lack of one |
| Monitor.TickIsolatesTickers | backend/monitor.py:20-38 | what a tick stores and reports for a ticker depends only on that ticker's own query |
| Monitor.RepeatedAnswerIsQuiet | backend/monitor.py:29-35 | a tick whose newest filing for a ticker carries the accession number the tick before stored reports nothing for it |
| Monitor.SeedSuppressesFirstTick | backend/monitor.py:45-54 | right after seeding, a tick that sees the same answer reports nothing for the ticker, even one that was already tracked |
| Monitor.ChangeReportedOnceThenQuiet | backend/monitor.py:26-35 | a seeded ticker whose newest accession number changed is reported once with the new filing, its baseline advances, and the next tick with the same answer is quiet |
| Monitor.LiveQuery | backend/monitor.py:22 | the query a tick makes, get_recent_filings with the default filter: it never raises and returns at most 10 records |
| Monitor.LiveChangeIsNewestListed | backend/monitor.py:22-30 | with `get_recent_filings` as the query, a reported filing is the first listed record for that ticker and carries the ticker's CIK |

## Left out

- HTTP requests, the `User-Agent` header and JSON decoding are not modelled. Their outcomes are inputs: `Fetch` values and the `Edgar` snapshot. A request or body that fails is `Unavailable`.
- HTML-to-text extraction in `get_filing_text` (BeautifulSoup, removing `script` and `style`) is not modelled. The extracted text is an input.
- Logging is not modelled. `check_updates` returns what it logs as "new filing detected"; the error logs leave no trace.
- The scheduler wiring (`start_monitor`, a 10-minute interval job) is not modelled. Each tick is one sequential `CheckUpdates` call, and concurrency between a tick and `add_ticker_to_monitor` is not modelled.
- Python iterates a set in an unspecified order. `CheckUpdates` visits the tickers in an arbitrary order; the stored state and the set of reported pairs do not depend on it.
- Text.Upper: only ASCII letters are upper-cased. Python's Unicode case mapping (which can change a string's length) is not modelled.
- Text.ZFill: the handling of a leading sign is not modelled, because the CIK is printed from a non-negative integer.
- A `cik_str` that is not a non-negative integer is not modelled: `TickerEntry.cikStr` is a `nat`.
- JSON values of the wrong type in the ticker table are not modelled: a non-string `ticker` (which fails the comparison and the loop goes on), a non-integer `cik_str` (which `str()` still prints and pads) and a non-dict entry (which raises only when reached before the match).
- JSON values of the wrong type inside the columns are not modelled; every column entry is a string. A top level of the ticker table that is not a dictionary is `Unavailable` (`None`, `backend/scraper.py:35-37`). A `filings` or `recent` value of the wrong type gives `[]` (`backend/scraper.py:96-98`), modelled by leaving that CIK out of `Edgar.submissions`.
- Characters are Dafny `char`s. Python's slicing by code points in `text[:100000]` is modelled as slicing a sequence of characters.
- Scraper.IncompleteRowVoidsScan and Scraper.ShortColumnGivesNoFilings: stated for the unfiltered listing only. Every call site uses the default filter (`backend/monitor.py:22,49`, `backend/main.py:54`). With a filter, the same all-or-nothing outcome follows from `Scan`, but no separate lemma states it.
- The analysis wrapper (`backend/analyzer.py`), the HTTP endpoints (`backend/main.py`), the front end and the manual scripts are not part of this model.
