# Amazon price tracker: ledger reconciliation and price analytics

This project models the daily pass of `amazon_price.py`, a script that
records one price per tracked product URL per day in a CSV ledger and
mails a summary. Each run does four things:

1. **Cleanup.** It reads the ledger and drops stale placeholders. A stale
   placeholder is a row dated today, for a tracked URL, whose price is the
   literal `N/A`. It then writes the rest back in order.
2. **History.** It rebuilds a per-URL price history from the cleaned rows.
3. **Skip or record.** It visits the tracked URLs in list order:
   - A URL is skipped when its history already holds a row of today whose
     price is anything but `N/A`.
   - Otherwise one row dated today is appended: either the scraped name and
     price, or the sentinel row (`ERROR`, `N/A`) when scraping raised.
   - One report entry goes with each appended row: the previous-day price,
     the all-time low and the date of that low.
4. **Report.** It builds the e-mail body only when the report has entries.

The model turns the scraper into a given result per URL:
`Fetched(name, price) | Failed`. A price cell is a `Price`:

- `NA` is the literal `N/A`;
- `Num(cents)` is a number that `float()` accepts, kept in whole cents;
- `Bad(text)` is any other text, which `float()` rejects. By convention that
  text is neither `N/A` nor a number; the type does not enforce it.

Dates and URLs are strings. They are only compared for equality.

Modules:

- `Prices`: the price cell, the two-decimal rendering and reading it back.
- `Ledger`: rows, row selections, the cleanup loop and the history rebuild.
- `Analytics`: the skip test, the previous-day price and the running low.
- `Reconciler`: the per-URL loop. It comes in two forms:
  - the class `DailyRun`, whose fields are the written ledger, the history
    and `daily_report`, and whose methods update them as the script does;
  - the function `Reconcile` on values, about which the run's properties
    are proved.
- `Report`: the e-mail body lines.
- `Tracker`: one whole run, plus worked examples.

Points of the code's behaviour that the model keeps as written:

- **Tie with today's price.** The low date moves only when a history price
  is strictly below the running low, which starts at today's price
  (lines 116-128). So a history price equal to today's price keeps the date
  at today, and ties inside the history keep the earliest date.
- **Non-numeric price today.** When today's price is not numeric,
  `float(lowest_price)` raises on every history row (line 126), so the low
  never moves, and line 139 reports it as `N/A`, even if the history has
  numeric prices.
- **No drop alert.** The script builds no price-drop alert: `sms_lines`
  (line 176) is created and never filled.

## Model

| member | source | states |
|---|---|---|
| `Ledger.Cleanup` | amazon_price.py:57-61 | the cleanup loop returns exactly `Cleaned(rows)`, the rows that are not stale placeholders, in order |
| `Ledger.CleanedExactly` | amazon_price.py:57-61 | a lone row survives cleanup iff it is not stale; cleaning a concatenation cleans each part in order; a row is in the cleaned ledger iff it was in the ledger and is not stale |
| `Ledger.CleanedIdempotent` | amazon_price.py:57-61 | cleaning an already cleaned ledger changes nothing |
| `Ledger.FilterMembers` | amazon_price.py:57-80 | a row survives a selection (cleanup, one URL's history) iff it is in the ledger and selected |
| `Ledger.FilterAppend` | amazon_price.py:57-80 | selecting from a concatenation is the concatenation of the selections, so relative order is kept |
| `Ledger.BuildHistory` | amazon_price.py:71-80 | the rebuilt `price_history` has a key iff some row carries that URL; `get(url, [])` returns exactly that URL's rows in ledger order |
| `Analytics.FindRecorded` | amazon_price.py:84-88 | the early-exit search returns true iff the history holds a row dated today whose price is not `N/A`, whatever that text is |
| `Analytics.RecordedOnValidRows` | amazon_price.py:84-88 | the skip test holds iff selecting the rows of today with a price other than `N/A` leaves something |
| `Analytics.MinOf` | amazon_price.py:135 | `min` returns an element of the list that is at most every element |
| `Analytics.Analyze` | amazon_price.py:115-139 | the history loop with its running variables yields the previous-day price, the reported low and the low date defined by `PreviousPrice`, `LowestPrice` and `RunningLow` |
| `Analytics.NumericPricesMembers` | amazon_price.py:117-123 | a value is in `all_prices` iff some history row carries it as its numeric price |
| `Analytics.PreviousPriceSpec` | amazon_price.py:120-125 | `previous_price` is `N/A` iff no row dated exactly yesterday has a numeric price; otherwise it is the price of the last such row in ledger order |
| `Analytics.RunningLowSpec` | amazon_price.py:116-128 | with a numeric price today, the running low is at most today's price and every numeric history price; its date is today if it equals today's price; otherwise its date is that of the first row carrying it, with every earlier numeric row strictly higher |
| `Analytics.LowestIsMinimum` | amazon_price.py:132-137 | with a numeric price today, the reported low is at most today's price and every numeric history price, and equals one of them |
| `Analytics.RunningLowIsLowest` | amazon_price.py:126-137 | the running low of the loop and the final `min(all_prices + [current])` are the same price, so the reported date belongs to the reported low |
| `Analytics.NonNumericToday` | amazon_price.py:126-139 | when today's price is not numeric the running low never moves: the low is `N/A` and its date is today |
| `Analytics.OnlyPricedRowsMatter` | amazon_price.py:120-130 | rows whose price `float()` rejects are ignored: the previous price, `all_prices`, the running low and the reported low equal those of the numeric rows alone |
| `Prices.NatTextValue` | amazon_price.py:125-127 | reading back the decimal digits of a whole number gives that number |
| `Prices.CentsRoundTrip` | amazon_price.py:125-127 | reading back the two-decimal text `f"{p:.2f}"` of an amount gives the same amount, so comparing `float(lowest_price)` compares the amount itself |
| `Reconciler.DailyRun.constructor` | amazon_price.py:52-80 | a new run holds the cleaned ledger as its written rows, a history that is exactly each URL's rows of that cleaned ledger, and an empty report |
| `Reconciler.DailyRun.Visit` | amazon_price.py:84-165 | one URL's step appends to the written rows and to the report exactly the row and entry of `UrlOutcome` for its history from the cleaned ledger; a skipped URL changes neither |
| `Reconciler.DailyRun.VisitAll` | amazon_price.py:82-165 | the URL loop appends the rows and entries of every URL's outcome, in URL order |
| `Reconciler.RowsOfMembers` | amazon_price.py:107-157 | a row written by the loop is exactly the row of some appended outcome |
| `Reconciler.AllSkipped` | amazon_price.py:89-91 | when every URL is skipped no row is written and no entry is reported |
| `Reconciler.RowsPerUrl` | amazon_price.py:107-157 | with distinct URLs, the rows written for a URL are those of its own outcome (one row unless skipped), and none for an untracked URL |
| `Reconciler.CleanupInvisible` | amazon_price.py:57-61 | a selection that never picks an `N/A` row of a tracked URL on today sees the same rows before and after cleanup |
| `Reconciler.RecordedSurvivesCleanup` | amazon_price.py:59-91 | cleanup never changes whether a URL is skipped |
| `Reconciler.OutcomeSpec` | amazon_price.py:84-165 | judged against the ledger before cleanup: a URL is skipped iff its history has a row of today priced other than `N/A`; otherwise a failed scrape gives the row (today, `ERROR`, `N/A`, url) and an all-`N/A` entry dated today, and a scrape gives the row (today, name, price, url) and the analytics of the URL's history |
| `Reconciler.LedgerShape` | amazon_price.py:59-157 | the written ledger is the cleaned ledger followed by at most one row per tracked URL, each dated today and for a tracked URL |
| `Reconciler.RowsOfLength` | amazon_price.py:82-157 | the loop writes at most one row per visited URL |
| `Reconciler.SettledRowsKept` | amazon_price.py:59-157 | rows dated another day or for an untracked URL are kept exactly, in order, and no such row is added |
| `Reconciler.HistoryAfterRun` | amazon_price.py:107-157 | with distinct URLs, a URL's history after the run is its cleaned history followed by its own outcome's row, or just the cleaned history for an untracked URL |
| `Reconciler.NoRowOfTodayLeft` | amazon_price.py:57-61 | a tracked URL with no valid price of today has no row of today left after cleanup |
| `Reconciler.PlaceholderReplaced` | amazon_price.py:57-112 | with distinct URLs, a tracked URL that had no valid price of today ends the run with exactly one row of today: a stale placeholder is replaced, not duplicated |
| `Reconciler.AtMostOneValidToday` | amazon_price.py:84-157 | with distinct URLs, if the ledger held at most one row of today priced other than `N/A` for a URL, so does the written ledger |
| `Reconciler.RecordedRunSkipsAll` | amazon_price.py:84-91 | a run on a ledger with a valid price of today for every tracked URL writes back the cleaned ledger, adds no row and reports nothing |
| `Reconciler.SecondRunIsNoOp` | amazon_price.py:57-112 | if the first run left every URL skipped or scraped with a price other than `N/A`, a second run that day, whatever it scrapes, leaves the ledger exactly as written and reports nothing |
| `Report.BuildBody` | amazon_price.py:171-183 | the body is built iff the report has entries, and is then the header followed by the lines of every entry |
| `Report.BodyLayout` | amazon_price.py:175-183 | the body has 3 + 5·n lines: the header block, then lines 3+5k to 3+5k+4 render entry k, in report order |
| `Tracker.DailyPass` | amazon_price.py:49-193 | a whole run with the class equals `Reconcile` on values, and its e-mail body is `ReportBody` of its report |
| `Tracker.SecondRunSendsNothing` | amazon_price.py:171-193 | after a run that recorded a valid price for every URL, a second run that day leaves the ledger unchanged and builds no e-mail |
| `Tracker.TieInHistoryKeepsEarliest` | amazon_price.py:116-137 | history 10.00 on 2024-01-01 and 10.00 on 2024-01-02 with 12.00 today: the low is 10.00 on 2024-01-01 |
| `Tracker.TieWithTodayKeepsToday` | amazon_price.py:126-128 | a history price equal to today's price leaves the low date at today |
| `Tracker.FirstRunOnEmptyLedger` | amazon_price.py:107-148 | an empty ledger and one URL scraped at 19.99 on 2024-01-01: one row, and an entry with no previous price and a low of 19.99 on 2024-01-01 |

## Left out

- Browser automation and HTML scraping (lines 44-46, 95-104, 168). Each URL's scrape is a given `Fetch` value, one per URL in list order. A scrape that did not run, because its URL was skipped, is ignored.
- CSV file I/O (lines 29-41, 53-56, 64-67). The ledger is an in-memory sequence of rows. The header row is not modelled.
- The first load block (lines 25-41) is left out because it is dead: lines 70-71 overwrite it. The set `existing_entries` (line 70) is never read, so it is left out too.
- Malformed ledger rows are not modelled: every row has all four cells. In the script, a missing price cell reads as `None`. `float(None)` then raises `TypeError` after the scraped row was written, and the outer handler writes a second `ERROR` row.
- E-mail sending and the environment-variable configuration (lines 10-13, 172, 186-191) are left out as foreign I/O. So is the final `"\n".join(body_lines)`: the model stops at the list of lines.
- `datetime.now()` (lines 22-23) is left out: `today` and `yesterday` are parameters.
- Console output (`print`, including `product_name[:60]`) is left out.
- Floating point is not modelled. Prices are whole cents, so only texts with up to two decimals are exact. Finite texts that `float()` accepts in other notations, such as `1e3`, stand for `Num` of their cents value. Non-finite texts (`nan`, `inf`) are not modelled: NaN never compares below the running low, `min` may return it, and both render as `nan`/`inf`, which neither `Num` nor `Bad` reproduces.
- `Report.BuildBody` renders a numeric price through its two-decimal text. The script prints today's scraped `price_text` verbatim, so a scraped text like `19.9` would appear as `19.90` in the model.
- The price-drop alert and the notifier's failure handling are not part of this source file.
- `Reconciler.RowsPerUrl`, `Reconciler.HistoryAfterRun`, `Reconciler.PlaceholderReplaced`, `Reconciler.AtMostOneValidToday`: these require distinct tracked URLs. The script's URL list is distinct. A repeated URL would be scraped and appended once per occurrence, because rows written during the run never enter the history.
