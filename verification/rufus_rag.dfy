/** The client of rufus_rag.py: the same depth-first crawl, but a failed
    extraction does not stop link discovery, hrefs are read defensively,
    each followed link goes through a three-attempt retry wrapper that
    re-enters the crawl, and the filter is a keyword-substring test
    without deduplication. */
module RufusRag {
  import opened Text
  import opened Web
  import opened Frontier
  import Extraction
  import Navigation

  /** The result of `_retry_navigation`: the new state, how many attempts
      were made and the sleeps taken (in seconds, in order). */
  datatype Retry = Retry(state: State, attempts: nat, sleeps: seq<nat>)

  /** `for attempt in range(3)` in `_retry_navigation`. */
  const RetryAttempts: nat := 3
  /** `await asyncio.sleep(2)` after a timeout in `_retry_navigation`. */
  const RetrySleep: nat := 2

  /** `_crawl_links(url)` from state `s`. Navigation never raises and its
      outcome is not consulted; an extraction failure is only logged. */
  function Crawl(c: Config, url: Url, s: State): (r: Step)
    ensures s.visited <= r.state.visited && |s.visited| <= |r.state.visited|
    ensures s.admitted <= r.state.admitted
    decreases Slack(c.pages, s.visited), 0
  {
    if !Admissible(c.pages, s, url) then Step(s, Done)
    else
      var s1 := Admit(s, url);
      var p := PageAt(c.web, url);
      var s2 := if p.selectorFound
        then s1.(data := s1.data + Extraction.PageRecords(c.prompt, |s1.visited|, p.texts))
        else s1;
      match p.anchors
      case AnchorsFailed(f) => Step(s2, Raised(f))
      case Anchors(hs) => Step(FollowLinks(c, hs, 0, s2), Done)
  }

  /** `_get_link_href`: the href, or `None` when reading it raised. */
  function GetLinkHref(h: Href): (r: Option<string>)
    ensures r.Some? <==> h.Readable?
    ensures r.Some? ==> r.value == h.value
  {
    match h
    case Readable(v) => Some(v)
    case Unreadable => None
  }

  /** The test of the link loop, on what `_get_link_href` returned. */
  predicate FollowableHref(next: Option<string>, visited: set<Url>) {
    next.Some? && next.value != [] && StartsWith(next.value, "http") && next.value !in visited
  }

  /** Reading hrefs defensively changes nothing about which links pass
      the test: it is the test the other variant applies to the href. */
  lemma FollowableHrefAgrees(h: Href, visited: set<Url>)
    ensures FollowableHref(GetLinkHref(h), visited) <==> Followable(h, visited)
  {
  }

  /** The link loop of `_crawl_links` from link `i` on; every followable
      link goes through `_retry_navigation`, which never raises. */
  function FollowLinks(c: Config, hs: seq<Href>, i: nat, s: State): (r: State)
    requires i <= |hs|
    ensures s.visited <= r.visited && |s.visited| <= |r.visited|
    ensures s.admitted <= r.admitted
    decreases Slack(c.pages, s.visited), 2, |hs| - i
  {
    if i == |hs| then s
    else
      var s' := if FollowableHref(GetLinkHref(hs[i]), s.visited)
        then Retried(c, hs[i].value, 0, s).state else s;
      FollowLinks(c, hs, i + 1, s')
  }

  /** One more attempt in front of the attempts `r` made, with the sleep
      that followed it, if any. */
  function Again(r: Retry, slept: bool): Retry {
    Retry(r.state, r.attempts + 1, (if slept then [RetrySleep] else []) + r.sleeps)
  }

  /** `_retry_navigation(url)` from attempt `k` on: load the page; on
      success crawl it and stop unless the crawl raised; sleep after a
      timeout, from the load or from the crawl; go on after any other
      error. */
  function Retried(c: Config, url: Url, k: nat, s: State): (r: Retry)
    requires k <= RetryAttempts
    ensures s.visited <= r.state.visited && |s.visited| <= |r.state.visited|
    ensures s.admitted <= r.state.admitted
    decreases Slack(c.pages, s.visited), 1, RetryAttempts - k
  {
    if k == RetryAttempts then Retry(s, 0, [])
    else
      match OpenAttempt(c.web, url, k)
      case Raised(f) => Again(Retried(c, url, k + 1, s), f == Timeout)
      case Done =>
        var st := Crawl(c, url, s);
        match st.outcome
        case Done => Retry(st.state, 1, [])
        case Raised(f) => Again(Retried(c, url, k + 1, st.state), f == Timeout)
  }

  /** Every crawl step keeps the frontier invariant: fresh admissions
      only, within budget, records fitting the pages admitted. */
  lemma {:induction false} CrawlExtends(c: Config, url: Url, s: State)
    ensures Extends(c, s, Crawl(c, url, s).state)
    decreases Slack(c.pages, s.visited), 0
  {
    if !Admissible(c.pages, s, url) {
      ExtendsRefl(c, s);
    } else {
      var s1 := Admit(s, url);
      var p := PageAt(c.web, url);
      AdmitUsesBudget(c.pages, s, url);
      var recs := if p.selectorFound then Extraction.PageRecords(c.prompt, |s1.visited|, p.texts) else [];
      Extraction.PageRecordsShape(c.prompt, |s1.visited|, p.texts);
      AdmitExtends(c, s, url, recs);
      var s2 := s1.(data := s1.data + recs);
      assert !p.selectorFound ==> s2 == s1;
      match p.anchors {
        case AnchorsFailed(f) =>
        case Anchors(hs) =>
          FollowExtends(c, hs, 0, s2);
          ExtendsTrans(c, s, s2, FollowLinks(c, hs, 0, s2));
      }
    }
  }

  lemma {:induction false} FollowExtends(c: Config, hs: seq<Href>, i: nat, s: State)
    requires i <= |hs|
    ensures Extends(c, s, FollowLinks(c, hs, i, s))
    decreases Slack(c.pages, s.visited), 2, |hs| - i
  {
    if i == |hs| {
      ExtendsRefl(c, s);
    } else {
      var follow := FollowableHref(GetLinkHref(hs[i]), s.visited);
      var s' := if follow then Retried(c, hs[i].value, 0, s).state else s;
      if follow {
        RetriedExtends(c, hs[i].value, 0, s);
      } else {
        ExtendsRefl(c, s);
      }
      FollowExtends(c, hs, i + 1, s');
      ExtendsTrans(c, s, s', FollowLinks(c, hs, i + 1, s'));
    }
  }

  lemma {:induction false} RetriedExtends(c: Config, url: Url, k: nat, s: State)
    requires k <= RetryAttempts
    ensures Extends(c, s, Retried(c, url, k, s).state)
    decreases Slack(c.pages, s.visited), 1, RetryAttempts - k
  {
    if k == RetryAttempts {
      ExtendsRefl(c, s);
    } else {
      var load := OpenAttempt(c.web, url, k);
      if load.Raised? {
        RetriedAfterFailedLoad(c, url, k, s, load.failure);
        RetriedExtends(c, url, k + 1, s);
      } else {
        var st := Crawl(c, url, s);
        CrawlExtends(c, url, s);
        if st.outcome.Raised? {
          RetriedAfterRaise(c, url, k, s, st.outcome.failure);
          RetriedExtends(c, url, k + 1, st.state);
          ExtendsTrans(c, s, st.state, Retried(c, url, k + 1, st.state).state);
        } else {
          RetriedStopsOnSuccess(c, url, k, s);
        }
      }
    }
  }

  /** The admission guard: a call whose budget is spent or whose address was
      visited returns at once and changes nothing; any other call admits
      its address first, before anything else it does. */
  lemma CrawlGuard(c: Config, url: Url, s: State)
    ensures !Admissible(c.pages, s, url) ==> Crawl(c, url, s) == Step(s, Done)
    ensures Admissible(c.pages, s, url) ==>
      var t := Crawl(c, url, s).state;
      |s.admitted| < |t.admitted| && t.admitted[|s.admitted|] == url && url in t.visited
  {
    if Admissible(c.pages, s, url) {
      var t := Crawl(c, url, s).state;
      assert Admit(s, url).admitted <= t.admitted;
    }
  }

  /** rufus_rag.py only logs a failed extraction: the page adds no records
      but its links are still followed. */
  lemma ExtractionFailureContinues(c: Config, url: Url, s: State, hs: seq<Href>)
    requires Admissible(c.pages, s, url) && !PageAt(c.web, url).selectorFound
    requires PageAt(c.web, url).anchors == Anchors(hs)
    ensures Crawl(c, url, s) == Step(FollowLinks(c, hs, 0, Admit(s, url)), Done)
  {
  }

  /** Crawling an address a second time adds nothing: the first call
      either changed nothing or put the address in the visited set. */
  lemma CrawlIdempotent(c: Config, url: Url, s: State)
    ensures var t := Crawl(c, url, s).state; Crawl(c, url, t) == Step(t, Done)
  {
    CrawlGuard(c, url, s);
  }

  /** `_retry_navigation` makes at most three attempts and every sleep it
      takes is of 2 seconds, one at most per attempt. */
  lemma {:induction false} RetriedBounded(c: Config, url: Url, k: nat, s: State)
    requires k <= RetryAttempts
    ensures var r := Retried(c, url, k, s);
      && r.attempts <= RetryAttempts - k
      && |r.sleeps| <= r.attempts
      && forall j :: 0 <= j < |r.sleeps| ==> r.sleeps[j] == RetrySleep
    decreases RetryAttempts - k
  {
    if k < RetryAttempts {
      match OpenAttempt(c.web, url, k) {
        case Raised(f) =>
          RetriedBounded(c, url, k + 1, s);
        case Done =>
          var st := Crawl(c, url, s);
          if st.outcome.Raised? {
            RetriedBounded(c, url, k + 1, st.state);
          }
      }
    }
  }

  /** The first attempt whose load and crawl both complete ends the loop. */
  lemma RetriedStopsOnSuccess(c: Config, url: Url, k: nat, s: State)
    requires k < RetryAttempts
    requires OpenAttempt(c.web, url, k) == Done && Crawl(c, url, s).outcome == Done
    ensures Retried(c, url, k, s) == Retry(Crawl(c, url, s).state, 1, [])
  {
  }

  /** A failed load is followed by the 2-second sleep exactly when it timed
      out, and the loop goes on from the same state. */
  lemma RetriedAfterFailedLoad(c: Config, url: Url, k: nat, s: State, f: Failure)
    requires k < RetryAttempts && OpenAttempt(c.web, url, k) == Raised(f)
    ensures var r := Retried(c, url, k + 1, s);
      Retried(c, url, k, s) == Retry(r.state, r.attempts + 1, (if f == Timeout then [RetrySleep] else []) + r.sleeps)
  {
  }

  /** A crawl inside an attempt that raised is followed by the 2-second
      sleep exactly when it timed out, and the loop goes on from the state
      that crawl left. */
  lemma RetriedAfterRaise(c: Config, url: Url, k: nat, s: State, f: Failure)
    requires k < RetryAttempts && OpenAttempt(c.web, url, k) == Done
    requires Crawl(c, url, s).outcome == Raised(f)
    ensures var r := Retried(c, url, k + 1, Crawl(c, url, s).state);
      Retried(c, url, k, s) == Retry(r.state, r.attempts + 1, (if f == Timeout then [RetrySleep] else []) + r.sleeps)
  {
  }

  /** The loop of `_retry_navigation` has made `attempts` attempts and
      taken `sleeps`; what the remaining attempts do (`rest`) completes
      them to `total`. */
  ghost predicate Resumes(total: Retry, attempts: nat, sleeps: seq<nat>, rest: Retry) {
    total == Retry(rest.state, attempts + rest.attempts, sleeps + rest.sleeps)
  }

  lemma ResumesShift(total: Retry, attempts: nat, sleeps: seq<nat>, rest: Retry, slept: bool)
    requires Resumes(total, attempts, sleeps,
      Retry(rest.state, rest.attempts + 1, (if slept then [RetrySleep] else []) + rest.sleeps))
    ensures Resumes(total, attempts + 1, sleeps + (if slept then [RetrySleep] else []), rest)
  {
    assert sleeps + ((if slept then [RetrySleep] else []) + rest.sleeps)
        == (sleeps + (if slept then [RetrySleep] else [])) + rest.sleeps;
  }

  lemma ResumesDone(total: Retry, attempts: nat, sleeps: seq<nat>, rest: Retry)
    requires Resumes(total, attempts, sleeps, rest)
    requires rest.sleeps == []
    ensures total == Retry(rest.state, attempts + rest.attempts, sleeps)
  {
    assert sleeps + [] == sleeps;
  }

  /** When the crawl inside an attempt raised, the next attempt that loads
      re-enters `_crawl_links` for an address already visited: it returns
      at once, adds nothing and ends the loop. */
  lemma RetryReentryAddsNothing(c: Config, url: Url, k: nat, s: State)
    requires k + 1 < RetryAttempts
    requires OpenAttempt(c.web, url, k) == Done && Crawl(c, url, s).outcome.Raised?
    requires OpenAttempt(c.web, url, k + 1) == Done
    ensures var t := Crawl(c, url, s).state;
      && Crawl(c, url, t) == Step(t, Done)
      && Retried(c, url, k, s).state == t
      && Retried(c, url, k, s).attempts == 2
  {
    CrawlIdempotent(c, url, s);
  }

  /** Whatever its attempts do, `_retry_navigation` crawls its address at
      most once in effect: it ends either in the state it started from or
      in the state of a single crawl of the address. */
  lemma {:induction false} RetriedCrawlsOnce(c: Config, url: Url, k: nat, s: State)
    requires k <= RetryAttempts
    ensures var r := Retried(c, url, k, s).state;
      r == s || r == Crawl(c, url, s).state
    decreases RetryAttempts - k
  {
    if k < RetryAttempts {
      match OpenAttempt(c.web, url, k) {
        case Raised(f) =>
          RetriedCrawlsOnce(c, url, k + 1, s);
        case Done =>
          var st := Crawl(c, url, s);
          if st.outcome.Raised? {
            RetriedCrawlsOnce(c, url, k + 1, st.state);
            CrawlIdempotent(c, url, s);
          }
      }
    }
  }

  /** Links are followed only when their href is an "http" address: every
      address admitted by a crawl after its first one passed that test. */
  ghost predicate HttpAdmissions(q: seq<Url>) {
    forall k :: 0 <= k < |q| ==> StartsWith(q[k], "http")
  }

  lemma HttpAdmissionsConcat(a: seq<Url>, b: seq<Url>)
    requires HttpAdmissions(a) && HttpAdmissions(b)
    ensures HttpAdmissions(a + b)
  {
    forall k | 0 <= k < |a + b| ensures StartsWith((a + b)[k], "http") {
      if k < |a| { assert (a + b)[k] == a[k]; } else { assert (a + b)[k] == b[k - |a|]; }
    }
  }

  lemma {:induction false} CrawlAdmitsLinks(c: Config, url: Url, s: State)
    ensures var t := Crawl(c, url, s).state;
      var q := t.admitted[|s.admitted|..];
      q == [] || (q[0] == url && HttpAdmissions(q[1..]))
    decreases Slack(c.pages, s.visited), 0
  {
    var t := Crawl(c, url, s).state;
    if Admissible(c.pages, s, url) {
      var s1 := Admit(s, url);
      var p := PageAt(c.web, url);
      var s2 := if p.selectorFound
        then s1.(data := s1.data + Extraction.PageRecords(c.prompt, |s1.visited|, p.texts))
        else s1;
      if p.anchors.Anchors? {
        FollowAdmitsLinks(c, p.anchors.hrefs, 0, s2);
        SuffixSplit(s.admitted, s2.admitted, t.admitted);
        assert t.admitted[|s.admitted|..] == [url] + t.admitted[|s2.admitted|..];
      } else {
        assert t.admitted[|s.admitted|..] == [url];
      }
    }
  }

  lemma {:induction false} FollowAdmitsLinks(c: Config, hs: seq<Href>, i: nat, s: State)
    requires i <= |hs|
    ensures var t := FollowLinks(c, hs, i, s);
      HttpAdmissions(t.admitted[|s.admitted|..])
    decreases Slack(c.pages, s.visited), 2, |hs| - i
  {
    if i == |hs| {
      assert s.admitted[|s.admitted|..] == [];
    } else {
      var follow := FollowableHref(GetLinkHref(hs[i]), s.visited);
      var s' := if follow then Retried(c, hs[i].value, 0, s).state else s;
      var t := FollowLinks(c, hs, i + 1, s');
      FollowAdmitsLinks(c, hs, i + 1, s');
      if follow {
        RetriedCrawlsOnce(c, hs[i].value, 0, s);
        if s' != s {
          CrawlAdmitsLinks(c, hs[i].value, s);
          var q := s'.admitted[|s.admitted|..];
          assert HttpAdmissions(q) by {
            if q != [] {
              assert q == [q[0]] + q[1..];
              HttpAdmissionsConcat([q[0]], q[1..]);
            }
          }
          SuffixSplit(s.admitted, s'.admitted, t.admitted);
          HttpAdmissionsConcat(q, t.admitted[|s'.admitted|..]);
        }
      }
    }
  }

  /** A whole crawl, as `scrape` starts it (empty visited set): at most
      `pages` addresses are visited, each exactly once, the seed first and
      every other one an "http" link; every record carries the prompt, a
      page number from 1 to `pages`, normalised content, and the records'
      page numbers never go down. */
  lemma CrawlFromEmpty(c: Config, url: Url, data: seq<Record>)
    requires c.pages >= 0
    ensures var t := Crawl(c, url, State({}, data, [])).state;
      && |t.visited| <= c.pages
      && t.visited == Elems(t.admitted)
      && Distinct(t.admitted)
      && (t.admitted == [] || (t.admitted[0] == url && HttpAdmissions(t.admitted[1..])))
      && data <= t.data
      && RecordsFit(c, 0, c.pages, t.data[|data|..])
  {
    var s := State({}, data, []);
    CrawlExtends(c, url, s);
    CrawlAdmitsLinks(c, url, s);
    var t := Crawl(c, url, s).state;
    assert t.admitted[|s.admitted|..] == t.admitted;
    assert RecordsFit(c, 0, |t.visited|, t.data[|data|..]);
  }

  /** `keywords` in `filter_data`. */
  const Keywords: seq<string> := ["job", "employment", "career", "internship", "fellowship"]

  /** `any(keyword in content.lower() for keyword in keywords)`. */
  predicate MentionsKeyword(content: string) {
    exists k :: k in Keywords && Contains(Lower(content), k)
  }

  /** The keyword test ignores ASCII case and looks for each keyword
      anywhere in the content. */
  lemma MentionsKeywordAt(content: string)
    ensures MentionsKeyword(content) <==>
      exists k, i :: k in Keywords && OccursAt(Lower(content), k, i)
  {
    forall k | k in Keywords {
      ContainsAt(Lower(content), k);
    }
  }

  /** A worked case: "Career Fair" is kept because it contains "career"
      once lower-cased. */
  lemma MentionsKeywordExample()
    ensures MentionsKeyword("Career Fair")
  {
    var l := Lower("Career Fair");
    assert l[..6] == "career";
    ContainsAt(l, "career");
    assert OccursAt(l, "career", 0);
  }

  /** `filter_data`: the list comprehension keeping the records whose
      lower-cased content contains a keyword. */
  function FilterData(data: seq<Record>): seq<Record> {
    if data == [] then []
    else (if MentionsKeyword(data[0].content) then [data[0]] else []) + FilterData(data[1..])
  }

  /** A record is kept exactly when it mentions a keyword. */
  lemma {:induction false} FilterDataKeeps(data: seq<Record>)
    ensures forall x :: x in FilterData(data) <==> x in data && MentionsKeyword(x.content)
  {
    if data != [] {
      FilterDataKeeps(data[1..]);
      assert data == [data[0]] + data[1..];
    }
  }

  /** No deduplication: a record that mentions a keyword is kept as many
      times as it occurs. */
  lemma {:induction false} FilterDataCounts(data: seq<Record>)
    ensures forall x :: (multiset(FilterData(data))[x]
      == if MentionsKeyword(x.content) then multiset(data)[x] else 0)
  {
    if data != [] {
      FilterDataCounts(data[1..]);
      assert data == [data[0]] + data[1..];
      assert multiset(data) == multiset([data[0]]) + multiset(data[1..]);
    }
  }

  /** The filter keeps records in their original order. */
  lemma {:induction false} FilterDataSubseq(data: seq<Record>)
    ensures IsSubseq(FilterData(data), data)
  {
    if data != [] {
      FilterDataSubseq(data[1..]);
      if MentionsKeyword(data[0].content) {
        assert ([data[0]] + FilterData(data[1..]))[1..] == FilterData(data[1..]);
      } else {
        assert FilterData(data) == FilterData(data[1..]);
      }
    }
  }

  /** The filter works record by record, so it distributes over
      concatenation. */
  lemma {:induction false} FilterDataAppend(a: seq<Record>, b: seq<Record>)
    ensures FilterData(a + b) == FilterData(a) + FilterData(b)
  {
    if a != [] {
      assert (a + b)[0] == a[0] && (a + b)[1..] == a[1..] + b;
      FilterDataAppend(a[1..], b);
    } else {
      assert a + b == b;
    }
  }

  class Client {
    const maxRetries: nat
    /** `self.all_data`: every record extracted since the client was made. */
    var allData: seq<Record>
    /** The order of the `visited.add` calls made by this client. */
    ghost var admitted: seq<Url>

    constructor (maxRetries: nat)
      ensures this.maxRetries == maxRetries && allData == [] && admitted == []
    {
      this.maxRetries := maxRetries;
      allData := [];
      admitted := [];
    }

    /** `scrape`: crawl from `url` with an empty visited set, catching what
        the crawl raises, then filter `all_data` (which still holds the
        records of earlier calls). */
    method Scrape(c: Config, url: Url) returns (result: seq<Record>)
      modifies this
      ensures var r := Crawl(c, url, State({}, old(allData), old(admitted)));
        allData == r.state.data && admitted == r.state.admitted
      ensures result == FilterData(allData)
    {
      var visited, outcome := CrawlLinks(c, url, {});
      result := FilterData(allData);
    }

    /** `_crawl_links`; `visited` is the shared set, passed in and handed
        back. */
    method CrawlLinks(c: Config, url: Url, visited: set<Url>) returns (visited': set<Url>, outcome: Outcome)
      modifies this
      decreases Slack(c.pages, visited), 0
      ensures Crawl(c, url, State(visited, old(allData), old(admitted)))
           == Step(State(visited', allData, admitted), outcome)
    {
      if |visited| >= c.pages || url in visited {
        return visited, Done;
      }
      visited' := visited + {url};
      admitted := admitted + [url];
      var attempts, sleeps, settled := Navigation.NavigateToUrl(c.web, url, maxRetries);
      var found := ExtractDataFromPage(c, url, |visited'|);
      assert !found ==> allData == old(allData);
      match PageAt(c.web, url).anchors {
        case AnchorsFailed(f) =>
          return visited', Raised(f);
        case Anchors(hs) =>
          ghost var s2 := State(visited', allData, admitted);
          var i := 0;
          while i < |hs|
            invariant i <= |hs|
            invariant visited <= visited' && |visited| < |visited'|
            invariant FollowLinks(c, hs, i, State(visited', allData, admitted)) == FollowLinks(c, hs, 0, s2)
          {
            var next := GetLinkHref(hs[i]);
            if next.Some? && next.value != [] && StartsWith(next.value, "http") && next.value !in visited' {
              var tries, naps;
              visited', tries, naps := RetryNavigation(c, next.value, visited');
            }
            i := i + 1;
          }
          outcome := Done;
      }
    }

    /** `_retry_navigation`. */
    method RetryNavigation(c: Config, url: Url, visited: set<Url>)
      returns (visited': set<Url>, attempts: nat, sleeps: seq<nat>)
      modifies this
      decreases Slack(c.pages, visited), 1
      ensures Retried(c, url, 0, State(visited, old(allData), old(admitted)))
           == Retry(State(visited', allData, admitted), attempts, sleeps)
    {
      ghost var total := Retried(c, url, 0, State(visited, allData, admitted));
      visited', attempts, sleeps := visited, 0, [];
      var attempt := 0;
      while attempt < RetryAttempts
        invariant attempt <= RetryAttempts && attempts == attempt
        invariant visited <= visited' && |visited| <= |visited'|
        invariant Resumes(total, attempts, sleeps, Retried(c, url, attempt, State(visited', allData, admitted)))
      {
        ghost var cur := State(visited', allData, admitted);
        var load := OpenAttempt(c.web, url, attempt);
        var slept := false;
        if load.Raised? {
          slept := load.failure == Timeout;
          RetriedAfterFailedLoad(c, url, attempt, cur, load.failure);
        } else {
          var raised;
          visited', raised := CrawlLinks(c, url, visited');
          if raised == Done {
            RetriedStopsOnSuccess(c, url, attempt, cur);
            ResumesDone(total, attempts, sleeps, Retried(c, url, attempt, cur));
            return visited', attempts + 1, sleeps;
          }
          slept := raised.failure == Timeout;
          RetriedAfterRaise(c, url, attempt, cur, raised.failure);
        }
        ResumesShift(total, attempts, sleeps, Retried(c, url, attempt + 1, State(visited', allData, admitted)), slept);
        attempts := attempts + 1;
        if slept {
          sleeps := sleeps + [RetrySleep];
        }
        attempt := attempt + 1;
      }
      ResumesDone(total, attempts, sleeps, Retried(c, url, attempt, State(visited', allData, admitted)));
    }

    /** `_extract_data_from_page`: if the selector is found, append one
        record per matched element; otherwise raise (reported as `false`)
        before appending anything. */
    method ExtractDataFromPage(c: Config, url: Url, pageNum: int) returns (found: bool)
      modifies this
      ensures found == PageAt(c.web, url).selectorFound
      ensures allData == old(allData)
        + if found then Extraction.PageRecords(c.prompt, pageNum, PageAt(c.web, url).texts) else []
      ensures admitted == old(admitted)
    {
      var p := PageAt(c.web, url);
      if !p.selectorFound {
        return false;
      }
      var i := 0;
      while i < |p.texts|
        invariant i <= |p.texts|
        invariant allData == old(allData) + Extraction.PageRecords(c.prompt, pageNum, p.texts[..i])
        invariant admitted == old(admitted)
      {
        assert p.texts[..i + 1] == p.texts[..i] + [p.texts[i]];
        Extraction.PageRecordsAppend(c.prompt, pageNum, p.texts[..i], p.texts[i]);
        allData := allData + [Record(c.prompt, pageNum, Collapse(p.texts[i]))];
        i := i + 1;
      }
      assert p.texts[..i] == p.texts;
      found := true;
    }
  }
}
