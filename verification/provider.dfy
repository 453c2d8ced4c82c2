/** The data exchanged with the bibliographic metadata provider, as far as the
    script reads it: HTTP replies, the JSON bodies of the citation pages and of
    the title lookup, the flattened citation records and the error kinds. */
module Provider {
  import opened Wrappers

  /** A JSON object member read with a default: absent, present but `null`,
      or present with a value.  The script distinguishes the first two only
      where it passes a non-`None` default to `dict.get`. */
  datatype Field<+T> = Missing | Null | Value(v: T)

  /** One HTTP request as the script sees it: either the transport raised
      (connection refused, timeout) or a response arrived with a status code,
      its raw text and its decoded JSON body. */
  datatype Reply<+B> =
    | Unreachable
    | Response(status: int, text: string, body: B)

  /** The `citingPaper` object of a citation item.  Every member is read with
      `dict.get` and no default, so absent and `null` both become `None`. */
  datatype Paper = Paper(
    title: Option<string>,
    year: Option<int>,
    publicationDate: Option<string>,
    paperId: Option<string>)

  /** One element of a page's `data` array. */
  datatype Item = Item(citingPaper: Field<Paper>)

  /** The JSON body of one page of citations: the `data` array and the
      `next` continuation cursor (absent and `null` both read as `None`). */
  datatype PageBody = PageBody(data: Field<seq<Item>>, next: Option<string>)

  /** The JSON body of the paper lookup; only `title` is read. */
  datatype TitleBody = TitleBody(title: Option<string>)

  /** One exported citation: exactly the keys title, year, date, paperId. */
  datatype Record = Record(
    title: Option<string>,
    year: Option<int>,
    date: Option<string>,
    paperId: Option<string>)

  /** The record an item with no `citingPaper` member produces. */
  const EmptyRecord := Record(None, None, None, None)

  /** Column names of the tabular export, in order. */
  const ExportColumns: seq<string> := ["title", "year", "date", "paperId"]

  /** The only status code the script accepts. */
  const StatusOk := 200

  /** Number of characters of a failed response's text kept in the message. */
  const SnippetLength := 200

  /** Ways a run can end early:
      - Transport: the HTTP request itself raised;
      - Provider: a citation page came back with a status other than 200;
      - Malformed: a 200 page whose `data` or `citingPaper` is `null`, which
        the script dereferences and so raises on;
      - NoPublicationDates: no record had a usable date to aggregate. */
  datatype Error =
    | Transport
    | ProviderStatus(status: int, snippet: string)
    | Malformed
    | NoPublicationDates

  /** The first `SnippetLength` characters of a response text. */
  function Snippet(text: string): (s: string)
    ensures |s| <= SnippetLength
    ensures s <= text
    ensures |text| <= SnippetLength ==> s == text
    ensures |text| > SnippetLength ==> |s| == SnippetLength
  {
    if |text| <= SnippetLength then text else text[..SnippetLength]
  }
}
