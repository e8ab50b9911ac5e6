/** The outside world of scripts/enrich_urls.py, as fixed oracles: Google
    Custom Search, page downloads, header requests, `urljoin` and `host_of`.
    Each is a function, so asking twice gives the same answer. */
module Web {
  import opened Base

  /** A `width` or `height` attribute as `int(img.get(attr) or 0)` sees it:
      missing or empty (0), a parsed integer, or text `int()` rejects. */
  datatype Dim = Missing | Parsed(n: int) | Unparsable

  /** An `<img src=...>` element of a page. */
  datatype Img = Img(src: string, width: Dim, height: Dim)

  /** What the scripts read from an HTML page: the `href` of every `<a>`, the
      `content` of the first og:image `<meta>` (None when there is no such
      element or it has no `content`), and the `<img>` elements, in document
      order. */
  datatype Page = Page(hrefs: seq<string>, og: Option<string>, imgs: seq<Img>)

  /** `session.get(url)` followed by `raise_for_status()`: an exception or an
      HTTP error, or the `Content-Type` header (lower-cased by the caller)
      and the parsed page. */
  datatype FetchReply = FetchFailed | Fetched(ct: string, page: Page)

  /** `session.get(url, stream=True)` used to peek at a header: an exception,
      or the `Content-Type` header ("" when absent). */
  datatype HeadReply = HeadFailed | Head(ct: string)

  /** The answer to one Custom Search request: the `link` field of every
      result item in order ("" for an item without one), HTTP 429, or any
      other failure (an HTTP error status, a network or JSON error), which
      the script does not catch. */
  datatype SearchReply = Hits(links: seq<string>) | Quota | SearchFailed

  /** `join(base, link)` is `urljoin(base, link)`, None when it raises
      (a `ValueError` on a malformed host such as "http://[x/a.png"). */
  datatype Net = Net(
    search: string -> SearchReply,
    fetch: string -> FetchReply,
    head: string -> HeadReply,
    join: (string, string) -> Option<string>,
    host: string -> string)
}
