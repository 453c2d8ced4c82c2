/** The fetcher: paginated retrieval of citing papers (strict: any failure
    aborts the whole fetch) and the single-shot title lookup (lenient on the
    status code).  The network is a finite sequence of replies: the i-th
    request made is answered by the i-th reply, and a request made after the
    sequence is used up is a transport failure. */
module Fetcher {
  import opened Wrappers
  import opened Provider

  // ---------------------------------------------------------------------
  // Projection of one page

  /** The record one item becomes, or `None` when its `citingPaper` is
      `null` (the script would call `.get` on `None` and raise). */
  function Project(item: Item): (r: Option<Record>)
    ensures r.None? <==> item.citingPaper.Null?
    ensures item.citingPaper.Missing? ==> r == Some(EmptyRecord)
    ensures item.citingPaper.Value? ==>
      var p := item.citingPaper.v;
      r == Some(Record(p.title, p.year, p.publicationDate, p.paperId))
  {
    match item.citingPaper
    case Missing => Some(EmptyRecord)
    case Null => None
    case Value(p) => Some(Record(p.title, p.year, p.publicationDate, p.paperId))
  }

  /** Every item of a page projected, in order; fails as soon as one item
      cannot be projected. */
  function ProjectAll(items: seq<Item>): (r: Result<seq<Record>, Error>)
    ensures r.Success? <==> forall i :: 0 <= i < |items| ==> Project(items[i]).Some?
    ensures r.Failure? ==> r.error == Malformed
    ensures r.Success? ==> |r.value| == |items|
    ensures r.Success? ==> forall i :: 0 <= i < |items| ==> r.value[i] == Project(items[i]).value
  {
    if |items| == 0 then Success([])
    else match Project(items[0])
      case None => Failure(Malformed)
      case Some(rec) =>
        match ProjectAll(items[1..])
        case Failure(e) => Failure(e)
        case Success(rest) => Success([rec] + rest)
  }

  /** Number of items a page body carries (`data` defaults to the empty list). */
  function ItemCount(body: PageBody): nat {
    match body.data
    case Value(items) => |items|
    case _ => 0
  }

  /** The records of one page body. */
  function PageRecords(body: PageBody): (r: Result<seq<Record>, Error>)
    ensures body.data.Missing? ==> r == Success([])
    ensures body.data.Null? ==> r == Failure(Malformed)
    ensures body.data.Value? ==> r == ProjectAll(body.data.v)
    ensures r.Success? ==> |r.value| == ItemCount(body)
    ensures r.Failure? ==> r.error == Malformed
  {
    match body.data
    case Missing => Success([])
    case Null => Failure(Malformed)
    case Value(items) => ProjectAll(items)
  }

  /** `while url:` goes on only for a non-empty cursor string. */
  predicate HasNext(body: PageBody) {
    body.next.Some? && body.next.value != ""
  }

  // ---------------------------------------------------------------------
  // The pagination loop, functionally

  /** Prefix already gathered records to the outcome of the remaining pages;
      a failure discards them. */
  function Prepend(acc: seq<Record>, r: Result<seq<Record>, Error>): Result<seq<Record>, Error> {
    match r
    case Success(rest) => Success(acc + rest)
    case Failure(e) => Failure(e)
  }

  /** The outcome of `fetch_citations_arxiv` when the successive requests are
      answered by `replies`. */
  function Crawl(replies: seq<Reply<PageBody>>): (r: Result<seq<Record>, Error>)
    ensures r.Failure? ==> r.error != NoPublicationDates
    decreases |replies|
  {
    if |replies| == 0 then Failure(Transport)
    else match replies[0]
      case Unreachable => Failure(Transport)
      case Response(status, text, body) =>
        if status != StatusOk then Failure(ProviderStatus(status, Snippet(text)))
        else match PageRecords(body)
          case Failure(e) => Failure(e)
          case Success(recs) =>
            if HasNext(body) then Prepend(recs, Crawl(replies[1..])) else Success(recs)
  }

  // ---------------------------------------------------------------------
  // An independent description of the pages the loop consumes

  /** A reply the loop accepts: status 200 and a well-formed body. */
  predicate OkPage(reply: Reply<PageBody>) {
    reply.Response? && reply.status == StatusOk && PageRecords(reply.body).Success?
  }

  /** The records an accepted reply contributes. */
  function Records(reply: Reply<PageBody>): seq<Record> {
    if OkPage(reply) then PageRecords(reply.body).value else []
  }

  /** The error a reply the loop does not accept raises. */
  function Rejection(reply: Reply<PageBody>): Error {
    match reply
    case Unreachable => Transport
    case Response(status, text, body) =>
      if status != StatusOk then ProviderStatus(status, Snippet(text)) else Malformed
  }

  /** The concatenation, in arrival order, of the records of `pages`. */
  function Flatten(pages: seq<Reply<PageBody>>): seq<Record> {
    if |pages| == 0 then [] else Records(pages[0]) + Flatten(pages[1..])
  }

  /** The total number of items carried by `pages`. */
  function TotalItems(pages: seq<Reply<PageBody>>): nat {
    if |pages| == 0 then 0
    else (if pages[0].Response? then ItemCount(pages[0].body) else 0) + TotalItems(pages[1..])
  }

  /** The first `k` requests were all answered by accepted pages that
      carried a continuation cursor, so request `k` is made. */
  ghost predicate Reaches(replies: seq<Reply<PageBody>>, k: nat) {
    k <= |replies| &&
    forall i :: 0 <= i < k ==> OkPage(replies[i]) && HasNext(replies[i].body)
  }

  /** The loop succeeds after exactly `n` requests: it reaches request
      `n - 1`, whose page is accepted and has no cursor. */
  ghost predicate Completes(replies: seq<Reply<PageBody>>, n: nat) {
    1 <= n <= |replies| && Reaches(replies, n - 1) &&
    OkPage(replies[n - 1]) && !HasNext(replies[n - 1].body)
  }

  /** The loop stops at request `k` with error `e`: request `k` is made and
      either no reply is left for it or its reply is not accepted. */
  ghost predicate FailsAt(replies: seq<Reply<PageBody>>, k: nat, e: Error) {
    Reaches(replies, k) &&
    ((k == |replies| && e == Transport) ||
     (k < |replies| && !OkPage(replies[k]) && e == Rejection(replies[k])))
  }

  // ---------------------------------------------------------------------
  // Lemmas relating the loop to the description

  lemma {:induction false} FlattenLength(pages: seq<Reply<PageBody>>)
    requires forall i :: 0 <= i < |pages| ==> OkPage(pages[i])
    ensures |Flatten(pages)| == TotalItems(pages)
  {
    if |pages| > 0 {
      FlattenLength(pages[1..]);
    }
  }

  /** Dropping the first reached page leaves one fewer reached page. */
  lemma ReachesTail(replies: seq<Reply<PageBody>>, k: nat)
    requires 0 < k && Reaches(replies, k)
    ensures Reaches(replies[1..], k - 1)
  {
  }

  /** When the loop completes after `n` requests it returns exactly the
      records of those `n` pages, in arrival order, one per item. */
  lemma {:induction false} CompletesYields(replies: seq<Reply<PageBody>>, n: nat)
    requires Completes(replies, n)
    ensures Crawl(replies) == Success(Flatten(replies[..n]))
    ensures |Flatten(replies[..n])| == TotalItems(replies[..n])
  {
    assert OkPage(replies[0]) by {
      if n > 1 { assert Reaches(replies, n - 1); } 
    }
    var recs := PageRecords(replies[0].body).value;
    assert replies[..n][0] == replies[0];
    assert replies[..n][1..] == replies[1..][..n - 1];
    assert Records(replies[0]) == recs;
    if n == 1 {
      assert replies[..n][1..] == [];
      assert Flatten(replies[..n]) == recs + [];
      assert recs + [] == recs;
      assert Crawl(replies) == Success(recs);
    } else {
      ReachesTail(replies, n - 1);
      assert replies[1..][n - 2] == replies[n - 1];
      CompletesYields(replies[1..], n - 1);
      assert HasNext(replies[0].body);
      assert Crawl(replies) == Prepend(recs, Crawl(replies[1..]));
      assert Flatten(replies[..n]) == recs + Flatten(replies[1..][..n - 1]);
    }
    forall i | 0 <= i < n ensures OkPage(replies[..n][i]) {
      assert replies[..n][i] == replies[i];
    }
    FlattenLength(replies[..n]);
  }

  /** When the loop fails at request `k` it raises the error of that request. */
  lemma {:induction false} FailsAtYields(replies: seq<Reply<PageBody>>, k: nat, e: Error)
    requires FailsAt(replies, k, e)
    ensures Crawl(replies) == Failure(e)
  {
    if k > 0 {
      assert OkPage(replies[0]) && HasNext(replies[0].body);
      ReachesTail(replies, k);
      if k < |replies| {
        assert replies[1..][k - 1] == replies[k];
      }
      FailsAtYields(replies[1..], k - 1, e);
    } else if |replies| > 0 {
      match replies[0]
      case Unreachable =>
      case Response(status, text, body) =>
    }
  }

  /** Every run of the loop either completes or fails at some request. */
  lemma {:induction false} CrawlCases(replies: seq<Reply<PageBody>>)
    ensures Crawl(replies).Success? ==> exists n: nat :: Completes(replies, n)
    ensures Crawl(replies).Failure? ==> exists k: nat :: FailsAt(replies, k, Crawl(replies).error)
    decreases |replies|
  {
    if |replies| == 0 {
      assert FailsAt(replies, 0, Transport);
    } else if !OkPage(replies[0]) {
      assert FailsAt(replies, 0, Rejection(replies[0]));
    } else if !HasNext(replies[0].body) {
      assert Completes(replies, 1);
    } else {
      CrawlCases(replies[1..]);
      var rest := replies[1..];
      if Crawl(rest).Success? {
        var n: nat :| Completes(rest, n);
        assert Reaches(replies, n) by {
          forall i | 0 <= i < n ensures OkPage(replies[i]) && HasNext(replies[i].body) {
            if i > 0 { assert replies[i] == rest[i - 1]; }
          }
        }
        assert replies[n] == rest[n - 1];
        assert Completes(replies, n + 1);
      } else {
        var k: nat :| FailsAt(rest, k, Crawl(rest).error);
        assert Reaches(replies, k + 1) by {
          forall i | 0 <= i < k + 1 ensures OkPage(replies[i]) && HasNext(replies[i].body) {
            if i > 0 { assert replies[i] == rest[i - 1]; }
          }
        }
        if k < |rest| { assert replies[k + 1] == rest[k]; }
        assert FailsAt(replies, k + 1, Crawl(rest).error);
      }
    }
  }

  /** The loop stops at the first accepted page without a cursor: at most one
      request count completes the loop. */
  lemma CompletesUnique(replies: seq<Reply<PageBody>>, n: nat, m: nat)
    requires Completes(replies, n) && Completes(replies, m)
    ensures n == m
  {
  }

  /** Successful pagination: the result is the concatenation of the records
      of the pages consumed, one record per item; and conversely. */
  lemma CrawlSuccess(replies: seq<Reply<PageBody>>, recs: seq<Record>)
    ensures Crawl(replies) == Success(recs) <==>
      exists n: nat :: Completes(replies, n) && recs == Flatten(replies[..n])
  {
    CrawlCases(replies);
    if Crawl(replies) == Success(recs) {
      var n: nat :| Completes(replies, n);
      CompletesYields(replies, n);
    }
    if exists n: nat :: Completes(replies, n) && recs == Flatten(replies[..n]) {
      var n: nat :| Completes(replies, n) && recs == Flatten(replies[..n]);
      CompletesYields(replies, n);
    }
  }

  /** Failed pagination: the loop raises `e` exactly when it reaches a
      request that is unanswered or rejected with `e`; no records are
      returned in that case. */
  lemma CrawlFailure(replies: seq<Reply<PageBody>>, e: Error)
    ensures Crawl(replies) == Failure(e) <==> exists k: nat :: FailsAt(replies, k, e)
  {
    CrawlCases(replies);
    if exists k: nat :: FailsAt(replies, k, e) {
      var k: nat :| FailsAt(replies, k, e);
      FailsAtYields(replies, k, e);
    }
  }

  /** A status other than 200 on any page the loop reaches aborts the fetch
      with that status, whatever earlier pages delivered. */
  lemma CrawlRejectsStatus(replies: seq<Reply<PageBody>>, k: nat)
    requires Reaches(replies, k) && k < |replies|
    requires replies[k].Response? && replies[k].status != StatusOk
    ensures Crawl(replies) == Failure(ProviderStatus(replies[k].status, Snippet(replies[k].text)))
  {
    FailsAtYields(replies, k, Rejection(replies[k]));
  }

  /** Nothing is requested after the last page: replacing every reply after
      it leaves the outcome unchanged. */
  lemma NothingAfterLastPage(replies: seq<Reply<PageBody>>, n: nat, later: seq<Reply<PageBody>>)
    requires Completes(replies, n)
    ensures Crawl(replies[..n] + later) == Crawl(replies)
  {
    var other := replies[..n] + later;
    assert other[..n] == replies[..n];
    assert Completes(other, n) by {
      forall i | 0 <= i < n ensures other[i] == replies[i] {
        assert other[i] == replies[..n][i];
      }
    }
    CompletesYields(replies, n);
    CompletesYields(other, n);
  }

  // ---------------------------------------------------------------------
  // The pagination loop, imperatively

  /** The inner `for item in items` loop: project one page's items in order. */
  method ReadPage(body: PageBody) returns (r: Result<seq<Record>, Error>)
    ensures r == PageRecords(body)
  {
    if body.data.Null? {
      return Failure(Malformed);
    }
    var items := if body.data.Value? then body.data.v else [];
    var page: seq<Record> := [];
    var j := 0;
    while j < |items|
      invariant 0 <= j <= |items|
      invariant |page| == j
      invariant forall t :: 0 <= t < j ==> Project(items[t]).Some? && page[t] == Project(items[t]).value
    {
      match items[j].citingPaper {
        case Null =>
          assert Project(items[j]).None?;
          return Failure(Malformed);
        case Missing =>
          page := page + [EmptyRecord];
        case Value(p) =>
          page := page + [Record(p.title, p.year, p.publicationDate, p.paperId)];
      }
      j := j + 1;
    }
    assert ProjectAll(items).value == page;
    return Success(page);
  }

  /** Gathering in two steps is gathering once. */
  lemma PrependTwice(all: seq<Record>, page: seq<Record>, r: Result<seq<Record>, Error>)
    ensures Prepend(all, Prepend(page, r)) == Prepend(all + page, r)
  {
    if r.Success? {
      assert all + (page + r.value) == (all + page) + r.value;
    }
  }

  /** `fetch_citations_arxiv`: request pages while a cursor comes back,
      projecting every item and appending the records in arrival order. */
  method FetchCitations(replies: seq<Reply<PageBody>>) returns (r: Result<seq<Record>, Error>)
    ensures r == Crawl(replies)
  {
    var all: seq<Record> := [];
    var i := 0;
    var more := true;
    assert replies[i..] == replies;
    if Crawl(replies).Success? {
      assert [] + Crawl(replies).value == Crawl(replies).value;
    }
    while more
      invariant 0 <= i <= |replies|
      invariant more ==> Crawl(replies) == Prepend(all, Crawl(replies[i..]))
      invariant !more ==> Crawl(replies) == Success(all)
      decreases |replies| - i, more
    {
      if i == |replies| {
        return Failure(Transport);
      }
      var rest := replies[i..];
      assert rest[0] == replies[i] && rest[1..] == replies[i + 1..];
      match replies[i]
      case Unreachable =>
        return Failure(Transport);
      case Response(status, text, body) =>
        if status != StatusOk {
          return Failure(ProviderStatus(status, Snippet(text)));
        }
        var page := ReadPage(body);
        if page.Failure? {
          return Failure(page.error);
        }
        if HasNext(body) {
          assert Crawl(rest) == Prepend(page.value, Crawl(replies[i + 1..]));
          PrependTwice(all, page.value, Crawl(replies[i + 1..]));
        } else {
          assert Crawl(rest) == Success(page.value);
        }
        all := all + page.value;
        more := HasNext(body);
        i := i + 1;
    }
    return Success(all);
  }

  // ---------------------------------------------------------------------
  // Title lookup

  /** `fetch_paper_title`: a 200 reply yields the body's `title` (which may
      itself be absent), any other status yields `None`; only a transport
      failure propagates. */
  function LookupTitle(reply: Reply<TitleBody>): (r: Result<Option<string>, Error>)
    ensures r.Failure? <==> reply.Unreachable?
    ensures r.Failure? ==> r.error == Transport
    ensures reply.Response? && reply.status == StatusOk ==> r == Success(reply.body.title)
    ensures reply.Response? && reply.status != StatusOk ==> r == Success(None)
  {
    match reply
    case Unreachable => Failure(Transport)
    case Response(status, _, body) =>
      if status == StatusOk then Success(body.title) else Success(None)
  }

  /** The label used for the chart: the looked-up title unless it is absent
      or empty (falsy), in which case `"arXiv:" + id`. */
  function DisplayTitle(title: Option<string>, id: string): (shown: string)
    ensures shown != ""
    ensures title.Some? && title.value != "" ==> shown == title.value
    ensures title.None? || title.value == "" ==> shown == "arXiv:" + id
  {
    if title.Some? && title.value != "" then title.value else "arXiv:" + id
  }
}
