# Rufus crawler core, modelled in Dafny

Rufus is a prompt-driven web scraper. Its `RufusClient` starts at a seed
address and crawls depth-first through a headless browser, stopping after a
page budget (`pages`). From every page it extracts the text of the elements
that a CSS selector matches, with whitespace collapsed. At the end it filters
the accumulated records for job-related content. The repository has two
variants of the client:

- `rufus.py` stops at a page whose extraction fails. It opens each followed
  link in a new tab. A failure to list the anchors of the seed page escapes
  `scrape`; for a followed link, the same failure is caught and logged by
  the caller's link loop. Its filter dedupes on lower-cased content and uses a relevance
  test (spaCy lemmatisation).
- `rufus_rag.py` still follows the links of a page whose extraction failed.
  It reads hrefs defensively and sends each followed link through a
  three-attempt `_retry_navigation` wrapper that re-enters the crawl. It
  catches everything in `scrape`. Its filter is a keyword-substring test
  without deduplication.

The browser is abstracted as a *web*: a map from address to a fake page. A
page says how each browser step on it ends: the attempts of the navigation
loop, the loads issued before recursing into it, waiting for the selector,
and listing its anchors. It also gives the stripped text of every element
the selector matches.

Each crawl is specified twice. The first is a pure function that threads a
`State` through the recursion; the state holds the visited set, `all_data`
and the order of admissions. The second is a `Client` class whose methods
mirror the Python methods, with `all_data` as a field. Each method's
`ensures` says it computes exactly what the function computes. The lemmas
are proved about the functions. Several hold on every call:

- the frontier invariant `Frontier.Extends`: fresh admissions only, within
  budget, with records that fit their pages;
- no address is crawled twice;
- the seed comes first and every other admitted address is an "http" link;
- the filter's properties.

Modules:

- `Text`: Python's `\s`, `re.sub(r'\s+', ' ', …)`, `str.lower()` on ASCII,
  `startswith`, and the substring test.
- `Web`: the abstract browser, records and crawl parameters.
- `Extraction`: the records one page yields.
- `Navigation`: `_navigate_to_url`, which is the same in both variants.
- `Frontier`: the crawl state, the admission guard and the invariant that
  every crawl step keeps.
- `Rufus`: the client of `rufus.py`.
- `RufusRag`: the client of `rufus_rag.py`.

## Model

| member | source | states |
|---|---|---|
| Text.IsSpace | rufus.py:99 | definition: the characters `\s` matches in a `str` pattern, i.e. those for which `str.isspace()` holds |
| Text.Collapse | rufus.py:99 | definition of `re.sub(r'\s+', ' ', …)`: each maximal whitespace run becomes one space and other characters are copied; its properties are the lemmas below |
| Text.CollapseNormalised | rufus.py:99 | after `re.sub(r'\s+', ' ', …)`, every whitespace character is a plain space and no two are adjacent |
| Text.CollapseKeepsNonSpaces | rufus.py:99 | the substitution keeps every non-whitespace character in order and adds none |
| Text.CollapseFixesNormalised | rufus.py:99 | text already in collapsed form is left unchanged |
| Text.CollapseIdempotent | rufus.py:99 | applying the substitution twice equals applying it once |
| Text.CollapseRun | rufus.py:99 | a non-empty whitespace run in front of non-whitespace becomes exactly one space |
| Text.CollapseKeepsChar | rufus.py:99 | equation of the definition: a non-whitespace character is copied through unchanged |
| Text.CollapseJoin | rufus.py:99 | two words separated by any whitespace run come out separated by one space |
| Text.CollapseExample | rufus_rag.py:113 | "career \n\t fair" becomes "career fair" |
| Text.Lower | rufus.py:110 | `str.lower()` keeps the length of the string |
| Text.LowerIdempotent | rufus.py:110 | lower-casing a lower-cased key changes nothing, and the result has no upper-case ASCII letter |
| Text.StartsWith | rufus.py:55 | definition of `s.startswith(p)`: `p` is a prefix of `s` |
| Text.Contains | rufus_rag.py:120 | definition of the substring test `k in s`; `Text.ContainsAt` relates it to positions |
| Text.ContainsAt | rufus_rag.py:120 | `keyword in content` holds exactly when the keyword occurs at some position of the content |
| Extraction.PageRecords | rufus.py:92-101 | definition: one record per matched element, in element order, each with the prompt, the page number and the collapsed text |
| Extraction.PageRecordsShape | rufus.py:92-101 | a page yields one record per matched element, in element order; each record carries the prompt, the page number and the collapsed text, which is normalised and keeps the element's non-whitespace characters |
| Extraction.PageRecordsAppend | rufus.py:92-101 | equation of the definition: appending one element's record at a time builds the page's records |
| Navigation.NavigateToUrl | rufus.py:67-83 | at most `max_retries` attempts; every attempt before the last timed out and was followed by a `2**attempt` second sleep; the loop ends on the first success (Loaded) or the first other error (Aborted), or with all retries timed out |
| Frontier.Admissible | rufus.py:36-37 | definition of the guard: the budget is not spent and the address was not visited |
| Frontier.Admit | rufus.py:39 | definition of `visited.add(url)`, also recording the order of admissions |
| Frontier.AdmitUsesBudget | rufus.py:36-39 | an admitted address is added to `visited`, whose size grows by one and stays within `pages`, so the remaining budget strictly drops |
| Frontier.AdmitExtends | rufus.py:39-43 | admitting an address and appending its page's records, numbered `len(visited)`, keeps the frontier invariant |
| Frontier.ExtendsTrans | rufus.py:52-59 | two successive crawl steps that each keep the frontier invariant keep it together |
| Rufus.Crawl | rufus.py:34-65 | a crawl only adds to the visited set and only appends to the admission order |
| Rufus.FollowLinks | rufus.py:51-65 | the link loop only adds to the visited set and only appends to the admission order |
| Rufus.CrawlExtends | rufus.py:34-65 | every crawl keeps the frontier invariant: fresh, distinct admissions exactly matching the growth of `visited`, `len(visited) <= pages` kept, and `all_data` grows only by records with the prompt, a page number of a page admitted in between, normalised content and non-decreasing page numbers |
| Rufus.FollowExtends | rufus.py:52-65 | the link loop keeps the same frontier invariant |
| Rufus.CrawlGuard | rufus.py:36-39 | a spent budget or a visited address returns at once with nothing changed; otherwise the address is the next one admitted |
| Rufus.Follows | rufus.py:55-58 | definition of the link test: the href was read, is non-empty, starts with "http", is unvisited, and its load in a new tab succeeded |
| Rufus.ExtractionFailureStops | rufus.py:42-49 | equation of the definition: when waiting for the selector fails, the address stays visited, nothing is recorded and no link is followed |
| Rufus.CrawlRaisesOnlyOnAnchors | rufus.py:36-51 | a crawl raises only when its address was admissible, the selector was found and listing the anchors of that page failed; its state is then exactly the admission plus that page's records, numbered `len(visited)` |
| Rufus.CrawlIdempotent | rufus.py:36-37 | crawling the same address again right after a crawl adds nothing |
| Rufus.CrawlAdmitsLinks | rufus.py:52-59 | the first address a crawl admits is its own; every later one is an "http" href whose load in a new tab succeeded |
| Rufus.FollowAdmitsLinks | rufus.py:52-65 | every address admitted by the link loop starts with "http" and loaded successfully in its new tab |
| Rufus.CrawlFromEmpty | rufus.py:25-28 | a whole crawl from an empty visited set visits at most `pages` addresses, each once; the seed comes first and the rest are followed links; the records are appended after the old data, with page numbers in 1..`pages`, in order |
| Rufus.Filtered | rufus.py:103-115 | definition of the `filter_data` loop from a given `seen` set, with `_is_relevant` as a parameter; its properties are the lemmas below |
| Rufus.FilteredSubseq | rufus.py:103-115 | the filter keeps records in their original order |
| Rufus.FilteredRelevant | rufus.py:109-113 | every kept record is relevant by its lower-cased content, and that content was not seen before |
| Rufus.FilteredDistinctKeys | rufus.py:108-113 | no two kept records have the same lower-cased content |
| Rufus.FilteredComplete | rufus.py:109-113 | every relevant record whose content was not seen before is represented among the kept records by its lower-cased content |
| Rufus.FilteredFirstOccurrences | rufus.py:108-113 | of several relevant records with the same lower-cased content, the first is the one kept: a record is kept when it is relevant, its key is unseen and no earlier record has its key, and every kept record is such a first occurrence |
| Rufus.FilteredKeepsFirstDuplicate | rufus.py:108-113 | of "Job" and "JOB", both relevant, only the first record is kept |
| Rufus.FilteredIdempotent | rufus.py:103-115 | filtering a filtered list changes nothing |
| Rufus.Client.constructor | rufus.py:13-17 | a new client stores `max_retries` and starts with empty `all_data` |
| Rufus.Client.Scrape | rufus.py:19-32 | crawls from an empty visited set; returns the exception the crawl raised, or else the filtered `all_data`, which includes the records of earlier calls |
| Rufus.Client.CrawlLinks | rufus.py:34-65 | the new visited set, `all_data`, admission order and raised outcome are exactly those of `Rufus.Crawl` |
| Rufus.Client.ExtractDataFromPage | rufus.py:85-101 | reports whether the selector was found; if it was, appends exactly the page's records, and otherwise appends nothing |
| Rufus.Client.FilterData | rufus.py:103-115 | the loop with its `seen` set returns exactly `Rufus.Filtered` from an empty `seen` |
| RufusRag.Crawl | rufus_rag.py:38-57 | a crawl only adds to the visited set and only appends to the admission order |
| RufusRag.GetLinkHref | rufus_rag.py:91-97 | returns the href exactly when reading it did not raise, and `None` otherwise |
| RufusRag.FollowableHref | rufus_rag.py:56 | definition of `next_url and next_url.startswith('http') and next_url not in visited` on what `_get_link_href` returned |
| RufusRag.FollowableHrefAgrees | rufus_rag.py:55-56 | the defensive href read selects the same links as the plain test (read, non-empty, "http", unvisited) |
| RufusRag.FollowLinks | rufus_rag.py:53-57 | the link loop only adds to the visited set and only appends to the admission order |
| RufusRag.Retried | rufus_rag.py:77-89 | the retry wrapper only adds to the visited set and only appends to the admission order |
| RufusRag.CrawlExtends | rufus_rag.py:38-57 | every crawl keeps the frontier invariant of `Frontier.Extends` |
| RufusRag.FollowExtends | rufus_rag.py:53-57 | the link loop keeps the frontier invariant |
| RufusRag.RetriedExtends | rufus_rag.py:77-89 | the retry wrapper keeps the frontier invariant |
| RufusRag.CrawlGuard | rufus_rag.py:40-43 | a spent budget or a visited address returns at once with nothing changed; otherwise the address is the next one admitted |
| RufusRag.ExtractionFailureContinues | rufus_rag.py:46-57 | equation of the definition: when waiting for the selector fails, nothing is recorded but the page's links are still followed |
| RufusRag.CrawlIdempotent | rufus_rag.py:40-41 | crawling the same address again right after a crawl adds nothing |
| RufusRag.RetriedBounded | rufus_rag.py:79-89 | at most three attempts, at most one sleep per attempt, and every sleep lasts 2 seconds |
| RufusRag.RetriedStopsOnSuccess | rufus_rag.py:81-84 | equation of the definition: an attempt whose load and crawl both complete ends the loop after that one attempt |
| RufusRag.RetriedAfterFailedLoad | rufus_rag.py:81-89 | equation of the definition: a failed load costs one attempt, followed by a 2-second sleep exactly when it timed out; the next attempt starts from the same state |
| RufusRag.RetriedAfterRaise | rufus_rag.py:83-89 | equation of the definition: a crawl that raised inside an attempt is followed by a 2-second sleep exactly when it timed out; the next attempt starts from the state that crawl left |
| RufusRag.RetryReentryAddsNothing | rufus_rag.py:79-84 | after a crawl raised, the next successful load re-enters `_crawl_links` on an already visited address, which returns at once, so the retry adds nothing and ends after two attempts |
| RufusRag.RetriedCrawlsOnce | rufus_rag.py:77-89 | whatever its attempts do, the wrapper ends either in the state it started from or in the state of one single crawl of its address |
| RufusRag.CrawlAdmitsLinks | rufus_rag.py:53-57 | the first address a crawl admits is its own, and every later one is an "http" href |
| RufusRag.FollowAdmitsLinks | rufus_rag.py:53-57 | every address admitted by the link loop starts with "http" |
| RufusRag.CrawlFromEmpty | rufus_rag.py:27-30 | a whole crawl from an empty visited set visits at most `pages` addresses, each once; the seed comes first and the rest are "http" links; the records are appended after the old data, with page numbers in 1..`pages`, in order |
| RufusRag.MentionsKeyword | rufus_rag.py:119-120 | definition: one of "job", "employment", "career", "internship", "fellowship" is a substring of the lower-cased content |
| RufusRag.MentionsKeywordAt | rufus_rag.py:119-120 | a record is relevant exactly when one of the five keywords occurs somewhere in its lower-cased content |
| RufusRag.MentionsKeywordExample | rufus_rag.py:119-120 | "Career Fair" is relevant, because its lower-cased form contains "career" |
| RufusRag.FilterData | rufus_rag.py:117-121 | definition of the list comprehension of `filter_data`; its properties are the lemmas below |
| RufusRag.FilterDataKeeps | rufus_rag.py:117-121 | a record is in the result exactly when it is in the data and mentions a keyword |
| RufusRag.FilterDataCounts | rufus_rag.py:120 | there is no deduplication: a record that mentions a keyword occurs in the result as often as in the data, and any other record never does |
| RufusRag.FilterDataSubseq | rufus_rag.py:120 | the filter keeps records in their original order |
| RufusRag.FilterDataAppend | rufus_rag.py:120 | filtering distributes over concatenation |
| RufusRag.Client.constructor | rufus_rag.py:15-19 | a new client stores `max_retries` and starts with empty `all_data` |
| RufusRag.Client.Scrape | rufus_rag.py:21-36 | crawls from an empty visited set, swallows whatever escapes, and returns the keyword-filtered `all_data` |
| RufusRag.Client.CrawlLinks | rufus_rag.py:38-57 | the new visited set, `all_data`, admission order and raised outcome are exactly those of `RufusRag.Crawl` |
| RufusRag.Client.RetryNavigation | rufus_rag.py:77-89 | the loop's final visited set, `all_data`, attempt count and sleeps are exactly those of `RufusRag.Retried` from attempt 0 |
| RufusRag.Client.ExtractDataFromPage | rufus_rag.py:99-115 | reports whether the selector was found; if it was, appends exactly the page's records, and otherwise appends nothing |

## Left out

- Playwright is not modelled: the browser, tabs, `goto`, `wait_for_load_state`, scrolling, the 3-second dwell and timeouts are folded into the fake pages. Each page gives the outcome of every step the crawl takes on it. The CSS selector and the navigation timeout are folded into the page model too.
- BeautifulSoup and `get_text(strip=True)` are not modelled. The stripped text of each matched element is an input of the page.
- Only waiting for the selector is modelled as failing inside `_extract_data_from_page`. Records are therefore appended all or nothing.
- `_is_relevant` in `rufus.py` runs spaCy lemmatisation. It is the `isRelevant` parameter of `Rufus.Filtered` and `Rufus.Client.FilterData`.
- Text.Lower: `str.lower()` is modelled on the ASCII letters only. Python also lower-cases other Unicode letters, and a few of them change length.
- Navigation.NavigateToUrl: its outcome is only logged, so the crawl functions do not depend on it. The crawl goes on to extraction even after the navigation loop gave up.
- Sleeps are returned as lists of durations. Asynchronous scheduling, wall-clock time and logging are not modelled.
- RufusRag.FollowLinks, RufusRag.Client.CrawlLinks: `rufus_rag.py` hands the caller's own tab to `_retry_navigation`, which navigates it. Playwright disposes a frame's element handles when the frame navigates, so after the first followed link every later anchor handle of the caller fails to read and `_get_link_href` returns `None`. The real loop therefore follows at most the first link it sends through `_retry_navigation`. The model reads every href of the page, so it can follow more links than the code does. The lemmas about these members hold for every list of hrefs, so their bounds (budget, no address twice, "http" links only) also cover the page as the code sees it, with the hrefs after the first followed link `Unreadable`.
- The k-th load of an address always has the same outcome, `open[k]`. An address whose earlier loads failed stays unvisited and can be offered again from another page. The model replays the same outcomes for it, while the real browser might succeed the second time.
- `rufus.py` closes each new tab, and both `scrape` functions close the browser context. Resources are not modelled.
- `save_to_json`, `RufusAPI`, embedding generation, the FAISS index and the `__main__` blocks are not modelled. They are I/O or calls into foreign libraries.
- The Python defaults `max_retries=3`, `pages=3` and `timeout=30000` are not modelled as defaults. `maxRetries` and `pages` are explicit parameters, and the timeout is folded into the pages' outcomes.
- The `verbose` flag of the constructors is not modelled. Nothing in the crawl reads it.
