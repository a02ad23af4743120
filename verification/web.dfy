/** The browser, abstracted: a web is a map from address to a fake page
    that says how each browser step on that page ends. Records and the
    crawl parameters shared by both client variants live here too. */
module Web {
  import opened Text

  type Url = string

  datatype Option<T> = None | Some(value: T)

  /** How a browser step fails: Playwright's `TimeoutError`, or any other
      exception. */
  datatype Failure = Timeout | Other

  /** How a browser step ends. */
  datatype Outcome = Done | Raised(failure: Failure)

  /** The result of `link.get_attribute('href')` on one anchor: its value,
      or an exception while reading it. */
  datatype Href = Readable(value: string) | Unreadable

  /** The result of `page.query_selector_all('a[href]')`. */
  datatype Anchors = Anchors(hrefs: seq<Href>) | AnchorsFailed(failure: Failure)

  /** A fake page.
      - `settle[k]`: how attempt k of the navigation retry loop ends (load,
        network idle, scroll and dwell); attempts past the end succeed;
      - `open[k]`: how the k-th load that a caller issues before recursing
        into this page ends; loads past the end succeed;
      - `selectorFound`: whether waiting for the selector succeeds;
      - `texts`: the stripped text of every element the selector matches,
        in document order;
      - `anchors`: the anchors of the rendered page. */
  datatype Page = Page(
    settle: seq<Outcome>,
    open: seq<Outcome>,
    selectorFound: bool,
    texts: seq<string>,
    anchors: Anchors)

  type WebMap = map<Url, Page>

  /** What an address that is not in the web looks like: no step on it
      succeeds. */
  const Unreachable := Page([], [], false, [], Anchors([]))

  function PageAt(web: WebMap, url: Url): Page {
    if url in web then web[url] else Unreachable
  }

  /** How attempt `k` of the navigation retry loop on `url` ends. */
  function SettleAttempt(web: WebMap, url: Url, k: nat): Outcome {
    if url !in web then Raised(Other)
    else if k < |web[url].settle| then web[url].settle[k]
    else Done
  }

  /** How the `k`-th load of `url` issued before recursing into it ends. */
  function OpenAttempt(web: WebMap, url: Url, k: nat): Outcome {
    if url !in web then Raised(Other)
    else if k < |web[url].open| then web[url].open[k]
    else Done
  }

  /** One extracted record: `{"prompt": ..., "page": ..., "content": ...}`. */
  datatype Record = Record(prompt: string, page: int, content: string)

  /** The parameters of one `scrape` call that the crawl reads: the web
      standing in for the browser, the prompt label and the page budget.
      The CSS selector is folded into each page's `texts`, and the
      navigation timeout into the pages' outcomes. */
  datatype Config = Config(web: WebMap, prompt: string, pages: int)

  /** The link test both variants apply before following an href: it was
      read, it is non-empty, it starts with "http" and it has not been
      visited. */
  predicate Followable(h: Href, visited: set<Url>) {
    h.Readable? && h.value != [] && StartsWith(h.value, "http") && h.value !in visited
  }

  /** `a` is `b` with some elements left out, order kept. */
  predicate IsSubseq<T(==)>(a: seq<T>, b: seq<T>)
    decreases |b|
  {
    a == [] || (b != [] && ((a[0] == b[0] && IsSubseq(a[1..], b[1..])) || IsSubseq(a, b[1..])))
  }
}
