# Clinical-trial fetcher: a Dafny model

This project models the data-acquisition core of a small clinical-trials
dashboard. The function `fetch_trials` pages through the ClinicalTrials.gov v2
`/studies` search endpoint for one condition term. It keeps a record budget
(`max_studies`) and asks for `min(page_size, remaining)` studies per page. It
sends the continuation cursor only when the cursor is truthy, and it aborts on
any non-200 response. It stops after a page without a cursor or without
studies. Each study becomes one flat row of eight columns: NCT_ID, Title,
Status, Phase, Sponsor, Enrollment, StartDate and CompletionDate. The rows are
then cut to `max_studies`. The dashboard filters the table with a mask: it
keeps a row when its Sponsor and its Status are both among the selected values.

The HTTP layer is a finite sequence of responses, `pages`. The i-th request is
answered by `pages[i]`. A request with no response left is a transport failure.
A response is a `Page`: a status, the body text, the `studies` list (empty when
the key is absent) and `nextPageToken` (`JNull` when absent). A study is a
decoded JSON value (`Json`). Python's `None` is `JNull`.

Modules:

- `PyValues` (py_values.dfy): JSON values and the Python built-ins the code
  applies to them. `Get` is `dict.get`, `First` is `[0]`, `Truthy` is `bool()`
  and `SliceTo` is `[:stop]`. `Navigate` is an explicit null-propagating lookup
  of a key path.
- `Trials` (trials.dfy): `TrialRecord`. `ExtractStudy`/`BuildRecord` follow the
  source's `.get` chain in its evaluation order. `ExtractByPaths` is a reference
  extraction built from path lookups. `ExtractAll` runs the per-study loop over
  one page.
- `Fetcher` (fetcher.dfy): `FetchTrials` is the imperative loop, and
  `AppendStudies` is its inner per-study loop. `Run`/`Fetch`
  is its functional specification. `OutcomeSpec` states the promises in terms
  of the responses alone, and the lemmas below derive each one.
- `TableFilter` (table_filter.dfy): `FilterRows` is the Status/Sponsor filter.
  `MaskIndices` gives the positions where the boolean mask is true.

Points where the code's behaviour is easy to misread:

- The loop tests `not next_page_token`, so an empty-string cursor (or any
  other falsy value) also stops the loop, just as an absent or null one does,
  and such a cursor is never sent.
- Missing nested objects do not default to empty at every level. The code
  supplies `{}` only when a key is absent. A key that is present but
  holds `null` (or any non-object) raises AttributeError at the next `.get`.
  A present but empty `phases` list raises IndexError, unless an earlier
  column's lookup already raised (a string gives its first character, an
  object KeyError, anything else TypeError). Any of these aborts the whole
  fetch, modelled as `Malformed`.
- There are no dedicated error types. The code raises one plain exception for a
  non-200 status, carrying the status and `response.text[:500]`
  (`RequestFailed(status, excerpt)`). The other failures propagate from the
  libraries.

## Model

| member | source | states |
|---|---|---|
| `PyValues.Get` | app.py:46-61 | `obj.get(key, default)`: a dict gives the key's value, even a present null, or the default when the key is absent; anything else raises AttributeError. Its contract is carried by `Trials.ValueAtOne` and `Trials.ValueAtStep` |
| `PyValues.Truthy` | app.py:65 | Python truthiness of the cursor, as the stop test here and the cursor test at line 32 use it: false exactly for null, `false`, `0`, `""`, `[]` and `{}` |
| `PyValues.First` | app.py:57 | `[0]` on a list is its first element; an empty list raises IndexError; anything but a list or string raises |
| `PyValues.SliceTo` | app.py:71 | `s[:stop]` is a prefix of `s`; its length is `min(stop, len)` for `stop >= 0`, or `max(0, len + stop)` for a negative stop |
| `PyValues.Navigate` | app.py:46-61 | a chain of `.get` lookups can fail only with AttributeError |
| `PyValues.NavigateAppend` | app.py:46-61 | looking up `p + q` is looking up `q` in what `p` found; once an object is absent, every field below it is absent (null) |
| `Trials.ValueAtOne` | app.py:54-61 | a `.get(leaf)` with the `None` default is a path lookup of one key |
| `Trials.ValueAtStep` | app.py:46-61 | a `.get(key, {})` followed by further lookups is one step of a path lookup |
| `Trials.GetNested` | app.py:58-61 | `m.get(sub, {}).get(leaf)`; `Trials.ValueAtSub` states it equals the path lookup of `sub.leaf` below a module |
| `Trials.PhaseOf` | app.py:57 | `design.get("phaseList", {}).get("phases", [None])[0]`; `Trials.PhaseAtModule` and `Trials.PhaseIsFirstListedPhase` state what it yields |
| `Trials.ExtractStudy` | app.py:46-51 | the module lookups of one study, each a `.get` with a `{}` default; a study that is not an object raises AttributeError. `ExtractStudyFollowsPaths` states what the whole extraction computes |
| `Trials.BuildRecord` | app.py:53-62 | the record literal, its eight fields evaluated left to right; it gives a row only when every module it reads is an object. `ExtractStudyFollowsPaths` states each column |
| `Trials.ExtractStudyFollowsPaths` | app.py:45-62 | the source's `.get` chain with `{}` defaults equals, for every study, independent null-propagating path lookups per column (same record, same exception) |
| `Trials.MissingDesignModuleGivesNullPhaseAndEnrollment` | app.py:50-59 | without a design module, Phase and Enrollment are null, and the study fails only if another column's lookup fails |
| `Trials.PhaseIsFirstListedPhase` | app.py:57 | Phase is the first element of `phaseList.phases`, or null when either is absent; a present empty list raises IndexError unless an earlier column's lookup already raised |
| `Trials.EmptyStudyIsAllNull` | app.py:46-62 | a study object without `protocolSection` raises nothing and gives a row whose eight columns are all null |
| `Trials.ExtractAll` | app.py:45-62 | a page yields exactly one record per study, in order, iff no study raises; otherwise the error is the first failing study's |
| `Fetcher.Excerpt` | app.py:38-39 | the error body is the first `min(500, len)` characters of the response text |
| `Fetcher.ExtractPages` | app.py:45-62 | the concatenated records of pages number exactly the studies on them |
| `Fetcher.NextRequest` | app.py:27-33 | the request parameters: the term; a page size that is the smaller of `page_size` and the budget left, so at least 1 while the budget is not reached and `page_size >= 1`; the cursor exactly when it is truthy. `FetchRequestProtocol` states the sequence of requests through `ExpectedRequest` |
| `Fetcher.Run` | app.py:26-71 | the loop from a given state, one iteration per call. `RunOnlyAppends` and `RunMeetsOutcomeSpec` carry its contract |
| `Fetcher.RunOnlyAppends` | app.py:26-69 | the loop only appends requests, sends one more whenever the budget is not reached, and sleeps at most once per request it sends |
| `Fetcher.Fetch` | app.py:12-71 | the loop from no records and no cursor. `FetchMeetsOutcomeSpec` carries its contract |
| `Fetcher.FetchRequestsIffBudget` | app.py:26 | a fetch sends a request exactly when `max_studies > 0`, and never sleeps more often than it sends requests |
| `Fetcher.AppendStudies` | app.py:45-62 | the per-study loop appends one record per study, in order, to the records so far, or fails with the first study's exception, as `ExtractAll` says |
| `Fetcher.FetchTrials` | app.py:12-71 | the while loop (budget guard, request, status check, per-study append, stop test, sleep) returns the outcome, requests and sleeps of the specification `Fetch` |
| `Fetcher.RunMeetsOutcomeSpec` | app.py:26-69 | from every state the loop can reach, it ends as `OutcomeSpec` says |
| `Fetcher.FetchMeetsOutcomeSpec` | app.py:12-71 | every fetch satisfies `OutcomeSpec`: the requests follow the pages, and the outcome is fixed by the last response |
| `Fetcher.FetchLengthBound` | app.py:26-71 | the table has at most `max(0, max_studies)` rows, and exactly `min(max(0, max_studies), records fetched)` of them |
| `Fetcher.FetchKeepsPageOrder` | app.py:53-71 | the rows are a prefix of the requested pages' records concatenated in page order |
| `Fetcher.FetchRequestProtocol` | app.py:26-33 | each request carries the term and `pageSize = min(page_size, max_studies - fetched so far)`, with fetched so far below the budget (so at least 1 when `page_size >= 1`); the first request has no cursor; each later one has the previous page's truthy cursor |
| `Fetcher.FetchStopsAtFinalPage` | app.py:64-66 | a requested page with a missing or empty cursor, or with no studies, is the last page requested |
| `Fetcher.FirstPageWithoutCursorIsOnlyRequest` | app.py:64-66 | with a positive budget, a first response without a cursor means exactly one request |
| `Fetcher.FetchFailsWholeOnBadStatus` | app.py:38-39 | a non-200 page is the last request and the fetch fails with its status and body excerpt, whatever earlier pages held; a table comes back only when every requested page was a 200 |
| `Fetcher.FetchSleepsBetweenPages` | app.py:64-69 | one sleep between each two consecutive requests, plus exactly one more when the last page requested was a continuing page (a 200 that extracts, with a truthy cursor and studies) and the fetch returned a table, which happens only when the budget then ends the loop |
| `Fetcher.SinglePageScenario` | app.py:26-71 | budget 3, page size 1000, one page of 3 studies without a cursor: one request for 3, three rows, no sleep |
| `Fetcher.TwoPageScenario` | app.py:26-71 | budget 150, page size 100, pages of 100 (cursor "X") and 60 (no cursor): requests for 100 then 50, one sleep, 160 records cut to 150 rows |
| `TableFilter.Selected` | app.py:101-102 | the mask at one row: the Sponsor is among the selected sponsors and the Status among the selected statuses; `MaskIndices` and `FilterKeepsExactlySelected` state what the filter keeps |
| `TableFilter.MaskIndices` | app.py:100-103 | the mask's true positions are increasing, in range, and exactly the rows whose Sponsor and Status are both selected |
| `TableFilter.FilterRows` | app.py:100-103 | the filtered table is no longer than the table |
| `TableFilter.FilterFollowsMask` | app.py:100-103 | the filtered table is the table read at the mask's true positions, in order, so it is an order-preserving subsequence |
| `TableFilter.FilterKeepsExactlySelected` | app.py:100-103 | a row is kept iff it is in the table and its Sponsor and Status are both selected |
| `TableFilter.FilterAllSelectedKeepsTable` | app.py:87-88 | with every Sponsor and Status selected (the multiselects' default), the filter keeps the whole table |
| `TableFilter.FilterSplits` | app.py:100-103 | filtering is row by row: filtering `a + b` is filtering `a`, then `b` |
| `TableFilter.FilterIdempotent` | app.py:100-103 | filtering the filtered table again changes nothing |

## Left out

- HTTP transport and JSON decoding (app.py:35, app.py:41): each response is an
  abstract `Page`. A body that is not an object, or whose `studies` is not a
  list, is outside the model. Running out of responses stands for every
  transport failure.
- The error message text: `RequestFailed` keeps the status and the 500-character
  excerpt, not the formatted string.
- `print` (app.py:36). `time.sleep(delay)` (app.py:69) is a count of sleeps, so
  the `delay` argument does not appear.
- The `st.cache_data(ttl=3600)` wrapper and the module-level uncached fetch
  (app.py:76-83): framework memoisation with wall-clock expiry, and UI wiring.
- Date parsing, the `Duration_months` float division, medians, metrics, charts
  and widgets (app.py:9, app.py:89-97, app.py:105-137): pandas, floating-point
  and presentation code. Of the multiselects at app.py:87-88, only their
  default selection of every value is modelled.
- The defaults of `fetch_trials` (app.py:12: `condition="ALS"`,
  `max_studies=5000`, `page_size=1000`, `delay=0.2`), which both call sites
  rely on for `page_size` (app.py:78, app.py:82). A `Config` always carries
  the term, the budget and the page size explicitly.
- The DataFrame conversion `pd.DataFrame(all_records[:max_studies])` (app.py:71):
  pandas column dtypes are not modelled (for example, an Enrollment column with
  a null becomes float with NaN). The model returns the records as a sequence.
- JSON numbers are integers; floats in study fields are not modelled.
- TableFilter.FilterRows: an empty fetch gives a DataFrame with no columns. In
  the source, `df["Status"]` then raises KeyError (first at app.py:87, and again
  in the filter). The model filters an empty table to an empty table. Equality
  is plain value equality, which matches pandas `isin` for strings and `None`.
  An unhashable cell value would make `isin` raise, and that is not modelled.
