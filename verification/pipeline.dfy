/** The script's `main`, minus argument parsing, logging, drawing and file
    writing: look up the title (falling back to `"arXiv:" + id`), fetch every
    citing paper, aggregate the dated ones into a cumulative series, shorten
    the title for the chart, and hand every record to the export. */
module Pipeline {
  import opened Wrappers
  import opened Provider
  import opened Fetcher
  import opened Aggregator
  import opened Chart

  /** `d.get("date")` is truthy: present, not `None`, not empty. */
  predicate HasDate(r: Record) {
    r.date.Some? && r.date.value != ""
  }

  /** The records with a usable date, in their original order. */
  function Dated(ms: seq<Record>): (ds: seq<Record>)
    ensures forall r :: r in ds <==> r in ms && HasDate(r)
    ensures forall i :: 0 <= i < |ds| ==> HasDate(ds[i])
    ensures |ds| <= |ms|
  {
    if |ms| == 0 then []
    else (if HasDate(ms[0]) then [ms[0]] else []) + Dated(ms[1..])
  }

  /** The dates handed to the aggregator, one per dated record, in order. */
  function Dates(ms: seq<Record>): (ds: seq<string>)
    ensures |ds| == |Dated(ms)|
    ensures forall i :: 0 <= i < |ds| ==> Dated(ms)[i].date == Some(ds[i]) && ds[i] != ""
  {
    var dated := Dated(ms);
    seq(|dated|, i requires 0 <= i < |dated| => dated[i].date.value)
  }

  /** The bucket key of every date under the chosen granularity; `bucket`
      stands for date parsing plus the calendar rule of the frequency. */
  function BucketKeys(dates: seq<string>, bucket: string -> int): (keys: seq<int>)
    ensures |keys| == |dates|
    ensures forall i :: 0 <= i < |dates| ==> keys[i] == bucket(dates[i])
  {
    seq(|dates|, i requires 0 <= i < |dates| => bucket(dates[i]))
  }

  /** What a successful run produces: the chart title, the plotted series,
      and the header row and records written to the export. */
  datatype Report = Report(chartTitle: string, series: Series,
                           exportHeader: seq<string>, exported: seq<Record>)

  /** One run of the script for paper `id`: `titleReply` answers the title
      lookup, `pages` answer the citation requests in order. */
  function Run(id: string, titleReply: Reply<TitleBody>, pages: seq<Reply<PageBody>>,
               bucket: string -> int): (r: Result<Report, Error>)
    ensures titleReply.Unreachable? ==> r == Failure(Transport)
    ensures titleReply.Response? && Crawl(pages).Failure? ==> r == Failure(Crawl(pages).error)
    ensures r.Success? <==>
      titleReply.Response? && Crawl(pages).Success? && Dated(Crawl(pages).value) != []
    ensures r == Failure(NoPublicationDates) <==>
      titleReply.Response? && Crawl(pages).Success? && Dated(Crawl(pages).value) == []
    ensures r.Success? ==> r.value.exported == Crawl(pages).value
  {
    var title :- LookupTitle(titleReply);
    var metadata :- Crawl(pages);
    var series :- BuildSeries(BucketKeys(Dates(metadata), bucket));
    Success(Report(ChartTitle(DisplayTitle(title, id)), series, ExportColumns, metadata))
  }

  // ---------------------------------------------------------------------
  // Lemmas

  /** Filtering distributes over concatenation, so it keeps the relative
      order of the dated records. */
  lemma {:induction false} DatedAppend(a: seq<Record>, b: seq<Record>)
    ensures Dated(a + b) == Dated(a) + Dated(b)
  {
    if |a| == 0 {
      assert a + b == b;
    } else {
      assert (a + b)[1..] == a[1..] + b;
      DatedAppend(a[1..], b);
    }
  }

  /** Filtering twice is filtering once. */
  lemma {:induction false} DatedIdempotent(ms: seq<Record>)
    ensures Dated(Dated(ms)) == Dated(ms)
  {
    if |ms| > 0 {
      DatedIdempotent(ms[1..]);
      var head := if HasDate(ms[0]) then [ms[0]] else [];
      DatedAppend(head, Dated(ms[1..]));
      if HasDate(ms[0]) {
        assert Dated(head) == head by {
          assert head[1..] == [];
        }
      }
    }
  }

  /** The records the filter drops are exactly the undated ones: the dated
      and the undated records together number all records. */
  lemma {:induction false} DatedCount(ms: seq<Record>)
    ensures |Dated(ms)| + |Undated(ms)| == |ms|
  {
    if |ms| > 0 {
      DatedCount(ms[1..]);
    }
  }

  /** The records without a usable date, in order. */
  function Undated(ms: seq<Record>): (us: seq<Record>)
    ensures forall r :: r in us ==> r in ms && !HasDate(r)
  {
    if |ms| == 0 then []
    else (if HasDate(ms[0]) then [] else [ms[0]]) + Undated(ms[1..])
  }

  /** The series a successful run plots is the one built from the bucket
      keys of the dated records' dates, in their order. */
  lemma RunSeriesSource(id: string, titleReply: Reply<TitleBody>, pages: seq<Reply<PageBody>>,
                        bucket: string -> int)
    ensures Run(id, titleReply, pages, bucket).Success? ==>
      var rep := Run(id, titleReply, pages, bucket).value;
      BuildSeries(BucketKeys(Dates(rep.exported), bucket)) == Success(rep.series)
  {
  }

  /** A successful run exports every fetched record, dated or not (so at
      least one, and the export's header row can be taken from the first),
      under the four record keys, and its series ends at the number of
      dated records. */
  lemma RunTotals(id: string, titleReply: Reply<TitleBody>, pages: seq<Reply<PageBody>>,
                  bucket: string -> int)
    ensures Run(id, titleReply, pages, bucket).Success? ==>
      var rep := Run(id, titleReply, pages, bucket).value;
      && rep.exported == Crawl(pages).value
      && rep.exportHeader == ExportColumns
      && |rep.exported| > 0
      && rep.series.cumulative[|rep.series.cumulative| - 1] == |Dated(rep.exported)|
      && |rep.exported| == |Dated(rep.exported)| + |Undated(rep.exported)|
  {
    if Run(id, titleReply, pages, bucket).Success? {
      var rep := Run(id, titleReply, pages, bucket).value;
      RunSeriesSource(id, titleReply, pages, bucket);
      SeriesTotal(BucketKeys(Dates(rep.exported), bucket));
      DatedCount(rep.exported);
    }
  }

  /** The plotted series is built from exactly the dated records' bucket
      keys: it starts at the earliest of them, and each value counts the
      dated records in that bucket or an earlier one. */
  lemma RunSeries(id: string, titleReply: Reply<TitleBody>, pages: seq<Reply<PageBody>>,
                  bucket: string -> int, rep: Report)
    ensures Run(id, titleReply, pages, bucket) == Success(rep) ==>
      var keys := BucketKeys(Dates(rep.exported), bucket);
      && |keys| == |Dated(rep.exported)| > 0
      && rep.series.first == Min(keys)
      && CountsUpTo(keys, rep.series)
  {
    if Run(id, titleReply, pages, bucket) == Success(rep) {
      var keys := BucketKeys(Dates(rep.exported), bucket);
      RunSeriesSource(id, titleReply, pages, bucket);
      assert BuildSeries(keys) == Success(rep.series);
      SeriesCountsAll(keys, rep.series);
    }
  }

  /** The chart is titled with `ChartTitle` of the looked-up title, or of
      the fallback label when the lookup gave nothing usable: its first
      words, single-spaced, then the ellipsis. */
  lemma RunChartTitle(id: string, titleReply: Reply<TitleBody>, pages: seq<Reply<PageBody>>,
                      bucket: string -> int, rep: Report)
    ensures Run(id, titleReply, pages, bucket) == Success(rep) ==>
      var shown := DisplayTitle(LookupTitle(titleReply).value, id);
      var ws := Words(shown);
      var k := if |ws| <= MaxTitleWords then |ws| else MaxTitleWords;
      && rep.chartTitle == ChartTitle(shown)
      && PlainSpaced(rep.chartTitle)
      && Words(rep.chartTitle) == ws[..k] + ["\U{2026}"]
  {
    if Run(id, titleReply, pages, bucket) == Success(rep) {
      ChartTitleWords(DisplayTitle(LookupTitle(titleReply).value, id));
    }
  }
}
