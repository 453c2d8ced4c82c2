# Cumulative citation growth — a verified model

A Dafny model of the pure logic of `semantic_citation_growth.py`. The script
asks the Semantic Scholar Graph API for every paper citing a given arXiv
paper and turns their publication dates into a cumulative citation series.
It also plots that series under the paper's shortened title and exports the
citing-paper metadata as CSV.

The model covers four pieces:

- **Pagination** (`Fetcher`). The network is a finite sequence of replies:
  the i-th request gets the i-th reply. A reply is either `Unreachable` (the
  request raised) or a response with a status, its text and its JSON body. A
  request made after the replies run out counts as a transport failure.
  `Crawl` is the loop as a function. `FetchCitations` is the same loop as a
  method, proved equal to `Crawl` with a loop invariant. `Reaches`,
  `Completes` and `FailsAt` describe, without recursion, which pages the loop
  consumes. The lemmas connect the two views in both directions.
- **Title lookup and fallback** (`Fetcher.LookupTitle`,
  `Fetcher.DisplayTitle`).
- **Date filter and cumulative series** (`Pipeline.Dated`,
  `Aggregator.BuildSeries`). Each date is given as the integer key of its
  bucket, and consecutive buckets have consecutive keys. For monthly buckets
  the key is `12 * year + month - 1` (`Aggregator.MonthKey`). The series
  covers every key from the earliest date's to the latest date's, so empty
  buckets in between carry the running count forward.
- **Chart title truncation** (`Chart`). This models `str.split()` with
  Python's whitespace set, `" ".join`, and the appended `" …"`.

`Pipeline.Run` puts these together in the order `main` uses: title lookup,
then fetch, then filter, then series, then chart title and export.

Files: `wrappers.dfy` (Option/Result), `provider.dfy` (replies, bodies,
records, errors, constants), `fetcher.dfy`, `aggregator.dfy`, `chart.dfy`,
`pipeline.dfy`.

Points where the code's behaviour is easy to misread:

- `fetch_paper_title` tolerates only a non-200 status. A transport failure
  inside `requests.get` propagates, so `LookupTitle` fails with `Transport`
  on an `Unreachable` reply.
- Every field of a citing paper is read with `dict.get`, so every field of a
  `Record`, `paperId` included, is optional.
- `while url:` also stops on an empty-string cursor, so `HasNext` requires a
  non-empty `next`.
- An item whose `citingPaper` key is missing yields an all-`None` record.
  `item.get("citingPaper", {})` returns `None` when the key is present with
  value `null`, and the next `.get` then raises. Likewise, a `"data": null`
  body raises when it is iterated. Both cases end the fetch with `Malformed`.

## Model

| member | source | states |
|---|---|---|
| Provider.Snippet | semantic_citation_growth.py:47 | the diagnostic is a prefix of the response text: all of it when at most 200 characters, exactly 200 characters otherwise |
| Fetcher.Project | semantic_citation_growth.py:51-56 | an item projects to a record unless its `citingPaper` is null; a missing `citingPaper` gives the record with all four fields absent; a present one gives its title, year, `publicationDate` as date, and paperId |
| Fetcher.ProjectAll | semantic_citation_growth.py:50-57 | a page's items project successfully iff every item does; then exactly one record per item, in item order, each the item's projection |
| Fetcher.PageRecords | semantic_citation_growth.py:49-57 | a missing `data` member gives no records, a null one fails, and a present array gives exactly its items' projections (accepted iff every item projects); the record count equals the item count |
| Fetcher.ReadPage | semantic_citation_growth.py:50-57 | the inner item loop computes exactly the page's records, or the malformed-item failure |
| Fetcher.FetchCitations | semantic_citation_growth.py:39-60 | the imperative request loop returns exactly what the functional description of the loop returns |
| Fetcher.Crawl | semantic_citation_growth.py:39-60 | the fetch fails only with transport, status or malformed-page errors, never with the aggregator's empty-input error |
| Fetcher.CompletesYields | semantic_citation_growth.py:43-60 | when the loop ends after n accepted pages, the result is the concatenation of their records in arrival order, and its length is the total item count of those pages |
| Fetcher.FailsAtYields | semantic_citation_growth.py:43-47 | when the loop reaches a request with no reply, or a rejected reply, it fails with that request's error |
| Fetcher.CrawlCases | semantic_citation_growth.py:43-60 | every run either completes after some number of pages or fails at some reached request with the error it reports |
| Fetcher.CrawlSuccess | semantic_citation_growth.py:43-60 | the fetch returns `recs` iff for some n the first n pages are accepted, all but the last have a cursor, the last has none, and `recs` is their flattened records |
| Fetcher.CrawlFailure | semantic_citation_growth.py:43-47 | the fetch fails with `e` iff it reaches a request that is unanswered or rejected with `e`; a failure carries no records, whatever earlier pages delivered |
| Fetcher.CrawlRejectsStatus | semantic_citation_growth.py:46-47 | a non-200 status on any page the loop reaches aborts the fetch with that status and the text snippet |
| Fetcher.NothingAfterLastPage | semantic_citation_growth.py:43-58 | nothing is requested after the first accepted page without a cursor: replacing every later reply leaves the outcome unchanged |
| Fetcher.CompletesUnique | semantic_citation_growth.py:58 | at most one page count completes the loop, so it stops exactly at the first page without a cursor |
| Fetcher.FlattenLength | semantic_citation_growth.py:49-57 | accepted pages flatten to as many records as they carry items |
| Fetcher.LookupTitle | semantic_citation_growth.py:63-68 | a 200 reply yields the body's title, which may itself be absent; any other status yields absent; only an unreachable request fails |
| Fetcher.DisplayTitle | semantic_citation_growth.py:111 | the chart label is the looked-up title when it is present and non-empty, otherwise `"arXiv:" + id`; it is never empty |
| Aggregator.MonthKey | semantic_citation_growth.py:75 | the monthly bucket key determines its year and month (quotient and remainder by 12) |
| Aggregator.Histogram | semantic_citation_growth.py:75 | per-bucket counts: entry j is the number of dates whose key is the first key plus j |
| Aggregator.RunningSum | semantic_citation_growth.py:75 | the cumulative sum has one entry per count, and entry j is the sum of the first j + 1 counts |
| Aggregator.BuildSeries | semantic_citation_growth.py:71-76 | fails with "no publication dates" exactly on empty input; otherwise the series spans every bucket from the earliest date's key to the latest date's, with no gaps |
| Aggregator.HistogramSum | semantic_citation_growth.py:75 | the first n bucket counts from a key add up to the number of dates in those n buckets |
| Aggregator.SeriesCountsUpTo | semantic_citation_growth.py:74-75 | each series value is the number of input dates whose bucket is at or before that entry's bucket |
| Aggregator.SeriesCountsAll | semantic_citation_growth.py:74-75 | every entry of a built series counts the dates at or before its bucket |
| Aggregator.SeriesMonotone | semantic_citation_growth.py:75 | the series is non-decreasing |
| Aggregator.SeriesFirst | semantic_citation_growth.py:74-75 | the first bucket holds the earliest date, so the first value is its positive count |
| Aggregator.SeriesTotal | semantic_citation_growth.py:75 | the last value equals the number of input dates |
| Aggregator.SeriesStep | semantic_citation_growth.py:75 | each step adds exactly the new bucket's count; buckets without dates carry the previous value forward |
| Aggregator.MonthlyExample | semantic_citation_growth.py:71-76 | two January 2020 dates and one February 2020 date give exactly two monthly buckets, with values 2 and 3 |
| Chart.WordLength | semantic_citation_growth.py:86 | the first word ends at the first whitespace character or at the end of the text |
| Chart.Words | semantic_citation_growth.py:86 | every piece the split produces is non-empty and contains no whitespace |
| Chart.WordsSplit | semantic_citation_growth.py:86 | the split cuts at every whitespace character: text with a whitespace character in it splits into the split of the part before it followed by the split of the part after it |
| Chart.WordsOfWord | semantic_citation_growth.py:86 | a single word splits into itself |
| Chart.WordsKeepLetters | semantic_citation_growth.py:86 | splitting drops only whitespace: the words run together are the text's non-whitespace characters, in order |
| Chart.WordsJoin | semantic_citation_growth.py:86-87 | splitting words joined by single spaces gives back the same words |
| Chart.ChartTitle | semantic_citation_growth.py:86-87 | the chart title ends with `" …"`, its only whitespace is plain spaces, and it has exactly one space per kept word (one between each two kept words and one before the ellipsis), or one space when the title has no words |
| Chart.JoinLayout | semantic_citation_growth.py:87 | words joined with `" ".join` contain only plain spaces, one fewer than there are words |
| Chart.ChartTitleWords | semantic_citation_growth.py:86-87 | the words of the chart title are the first min(4, n) words of the title, then the ellipsis as one extra word, even when the title has four words or fewer |
| Pipeline.Dated | semantic_citation_growth.py:113 | a record is kept iff its date is present and non-empty; nothing is added |
| Pipeline.Dates | semantic_citation_growth.py:113 | one non-empty date per dated record, taken from that record in the same position |
| Pipeline.DatedAppend | semantic_citation_growth.py:113 | the filter distributes over concatenation, so it keeps the records' relative order |
| Pipeline.DatedIdempotent | semantic_citation_growth.py:113 | filtering an already filtered list changes nothing |
| Pipeline.Undated | semantic_citation_growth.py:113 | the records the filter drops all lack a usable date |
| Pipeline.DatedCount | semantic_citation_growth.py:113 | dated plus undated records number all records |
| Pipeline.Run | semantic_citation_growth.py:110-124 | a run succeeds iff the title request is answered, the fetch succeeds and some record is dated; an unreachable title request or a failed fetch fails the run with that error; it fails with "no publication dates" exactly when both succeed but no record is dated; the export gets the fetched records unchanged |
| Pipeline.RunTotals | semantic_citation_growth.py:113-124 | a successful run exports every record, dated or not (at least one, so the header can be read from the first), under the header title, year, date, paperId, and its series ends at the number of dated records |
| Pipeline.RunSeries | semantic_citation_growth.py:113-115 | the plotted series is built from exactly the dated records' bucket keys: one key per dated record, the series starts at the earliest key, and each value counts the dated records in that bucket or an earlier one |
| Pipeline.RunChartTitle | semantic_citation_growth.py:111-118 | the chart title is the truncation of the looked-up title, or of the `"arXiv:" + id` fallback: plain-spaced, with the first min(4, n) words of that label followed by the ellipsis |

## Left out

- HTTP requests, URL construction, the page size limit, timeouts and JSON decoding (lines 41, 45, 48, 64-65). They are replaced by the given reply sequence. A body that is not JSON, or a JSON value that is not an object, is not modelled.
- The continuation cursor is modelled as an optional string. Its content is never interpreted, because the next reply in the sequence answers the next request.
- Debug and info logging (lines 44, 59, 92, 110, 120).
- Date parsing by `pd.to_datetime` and the calendar rules of the D/W/M/Q/Y frequencies (lines 74-75, 113). Run takes the date-to-bucket-key function as a parameter. pandas' labelling of buckets by timestamp is not modelled; a bucket is named by its integer key. An unparseable date, which would raise in pandas, is not modelled.
- Drawing, figure layout, the chart heading text and saving the image (lines 79-85, 88-94). Only the title truncation at lines 86-87 is modelled.
- Argument parsing, logging setup and the default plot file name (lines 97-109, 116-117).
- The textual CSV encoding (lines 121-124). The export is modelled as its header row, the constant `ExportColumns`, and the record list written in order.
- Every member is a pure function, so building the series twice gives the same result; there is no lemma for this.
