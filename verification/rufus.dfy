/** The base client of rufus.py: a depth-first crawl that opens each
    followed link in a new tab (skipping the link if that first load
    fails), stops at a page whose extraction fails, and a relevance filter
    that deduplicates on lower-cased content. */
module Rufus {
  import opened Text
  import opened Web
  import opened Frontier
  import Extraction
  import Navigation

  /** `_crawl_links(url)` from state `s`. Navigation never raises and its
      outcome is not consulted, so it leaves no trace here; extraction runs
      on the page whatever the navigation did. */
  function Crawl(c: Config, url: Url, s: State): (r: Step)
    ensures s.visited <= r.state.visited && |s.visited| <= |r.state.visited|
    ensures s.admitted <= r.state.admitted
    decreases Slack(c.pages, s.visited), 0
  {
    if !Admissible(c.pages, s, url) then Step(s, Done)
    else
      var s1 := Admit(s, url);
      var p := PageAt(c.web, url);
      if !p.selectorFound then Step(s1, Done)
      else
        var s2 := s1.(data := s1.data + Extraction.PageRecords(c.prompt, |s1.visited|, p.texts));
        match p.anchors
        case AnchorsFailed(f) => Step(s2, Raised(f))
        case Anchors(hs) => Step(FollowLinks(c, hs, 0, s2), Done)
  }

  /** Whether the loop of `_crawl_links` recurses into `h`: the href is
      followable and the load in the new tab succeeds. */
  predicate Follows(c: Config, h: Href, visited: set<Url>) {
    Followable(h, visited) && OpenAttempt(c.web, h.value, 0) == Done
  }

  /** The link loop of `_crawl_links` from link `i` on. Whatever the
      recursive call raises is caught and the loop goes on. */
  function FollowLinks(c: Config, hs: seq<Href>, i: nat, s: State): (r: State)
    requires i <= |hs|
    ensures s.visited <= r.visited && |s.visited| <= |r.visited|
    ensures s.admitted <= r.admitted
    decreases Slack(c.pages, s.visited), 1, |hs| - i
  {
    if i == |hs| then s
    else
      var s' := if Follows(c, hs[i], s.visited) then Crawl(c, hs[i].value, s).state else s;
      FollowLinks(c, hs, i + 1, s')
  }

  /** Every crawl step keeps the frontier invariant: fresh admissions
      only, within budget, records fitting the pages admitted. */
  lemma {:induction false} CrawlExtends(c: Config, url: Url, s: State)
    ensures Extends(c, s, Crawl(c, url, s).state)
    decreases Slack(c.pages, s.visited), 0
  {
    if !Admissible(c.pages, s, url) {
      ExtendsRefl(c, s);
    } else {
      var s1 := Admit(s, url);
      var p := PageAt(c.web, url);
      AdmitUsesBudget(c.pages, s, url);
      if !p.selectorFound {
        AdmitExtends(c, s, url, []);
        assert s.data + [] == s.data;
      } else {
        var recs := Extraction.PageRecords(c.prompt, |s1.visited|, p.texts);
        Extraction.PageRecordsShape(c.prompt, |s1.visited|, p.texts);
        AdmitExtends(c, s, url, recs);
        var s2 := s1.(data := s1.data + recs);
        match p.anchors {
          case AnchorsFailed(f) =>
          case Anchors(hs) =>
            FollowExtends(c, hs, 0, s2);
            ExtendsTrans(c, s, s2, FollowLinks(c, hs, 0, s2));
        }
      }
    }
  }

  lemma {:induction false} FollowExtends(c: Config, hs: seq<Href>, i: nat, s: State)
    requires i <= |hs|
    ensures Extends(c, s, FollowLinks(c, hs, i, s))
    decreases Slack(c.pages, s.visited), 1, |hs| - i
  {
    if i == |hs| {
      ExtendsRefl(c, s);
    } else {
      var s' := if Follows(c, hs[i], s.visited) then Crawl(c, hs[i].value, s).state else s;
      if Follows(c, hs[i], s.visited) {
        CrawlExtends(c, hs[i].value, s);
      } else {
        ExtendsRefl(c, s);
      }
      FollowExtends(c, hs, i + 1, s');
      ExtendsTrans(c, s, s', FollowLinks(c, hs, i + 1, s'));
    }
  }

  /** The admission guard: a call whose budget is spent or whose address was
      visited returns at once and changes nothing; any other call admits
      its address first, before anything else it does. */
  lemma CrawlGuard(c: Config, url: Url, s: State)
    ensures !Admissible(c.pages, s, url) ==> Crawl(c, url, s) == Step(s, Done)
    ensures Admissible(c.pages, s, url) ==>
      var t := Crawl(c, url, s).state;
      |s.admitted| < |t.admitted| && t.admitted[|s.admitted|] == url && url in t.visited
  {
    if Admissible(c.pages, s, url) {
      var t := Crawl(c, url, s).state;
      assert Admit(s, url).admitted <= t.admitted;
    }
  }

  /** rufus.py stops at a page whose extraction raises: the address is
      visited, nothing is recorded and no link of the page is followed. */
  lemma ExtractionFailureStops(c: Config, url: Url, s: State)
    requires Admissible(c.pages, s, url) && !PageAt(c.web, url).selectorFound
    ensures Crawl(c, url, s) == Step(Admit(s, url), Done)
  {
  }

  /** Only a failure to enumerate the page's anchors escapes `_crawl_links`,
      after the page's records were appended. */
  lemma CrawlRaisesOnlyOnAnchors(c: Config, url: Url, s: State)
    requires Crawl(c, url, s).outcome.Raised?
    ensures Admissible(c.pages, s, url)
    ensures PageAt(c.web, url).selectorFound
    ensures PageAt(c.web, url).anchors == AnchorsFailed(Crawl(c, url, s).outcome.failure)
    ensures Crawl(c, url, s).state
         == Admit(s, url).(data := s.data + Extraction.PageRecords(c.prompt, |s.visited| + 1, PageAt(c.web, url).texts))
  {
    AdmitUsesBudget(c.pages, s, url);
  }

  /** Crawling an address a second time adds nothing: the first call
      either changed nothing or put the address in the visited set. */
  lemma CrawlIdempotent(c: Config, url: Url, s: State)
    ensures var t := Crawl(c, url, s).state; Crawl(c, url, t) == Step(t, Done)
  {
    CrawlGuard(c, url, s);
  }

  /** Links are followed only when their href is an "http" address whose
      load in a new tab succeeded: every address admitted by a crawl after
      its first one passed that test. */
  ghost predicate LinkAdmissions(c: Config, q: seq<Url>) {
    forall k :: 0 <= k < |q| ==> StartsWith(q[k], "http") && OpenAttempt(c.web, q[k], 0) == Done
  }

  lemma LinkAdmissionsConcat(c: Config, a: seq<Url>, b: seq<Url>)
    requires LinkAdmissions(c, a) && LinkAdmissions(c, b)
    ensures LinkAdmissions(c, a + b)
  {
    forall k | 0 <= k < |a + b|
      ensures StartsWith((a + b)[k], "http") && OpenAttempt(c.web, (a + b)[k], 0) == Done
    {
      if k < |a| { assert (a + b)[k] == a[k]; } else { assert (a + b)[k] == b[k - |a|]; }
    }
  }

  lemma {:induction false} CrawlAdmitsLinks(c: Config, url: Url, s: State)
    ensures var t := Crawl(c, url, s).state;
      s.admitted <= t.admitted &&
      var q := t.admitted[|s.admitted|..];
      q == [] || (q[0] == url && LinkAdmissions(c, q[1..]))
    decreases Slack(c.pages, s.visited), 0
  {
    CrawlExtends(c, url, s);
    var t := Crawl(c, url, s).state;
    if Admissible(c.pages, s, url) {
      var s1 := Admit(s, url);
      var p := PageAt(c.web, url);
      var s2 := s1.(data := s1.data + Extraction.PageRecords(c.prompt, |s1.visited|, p.texts));
      if p.selectorFound && p.anchors.Anchors? {
        FollowAdmitsLinks(c, p.anchors.hrefs, 0, s2);
        SuffixSplit(s.admitted, s2.admitted, t.admitted);
        assert t.admitted[|s.admitted|..] == [url] + t.admitted[|s2.admitted|..];
      } else {
        assert t.admitted[|s.admitted|..] == [url];
      }
    }
  }

  lemma {:induction false} FollowAdmitsLinks(c: Config, hs: seq<Href>, i: nat, s: State)
    requires i <= |hs|
    ensures var t := FollowLinks(c, hs, i, s);
      s.admitted <= t.admitted && LinkAdmissions(c, t.admitted[|s.admitted|..])
    decreases Slack(c.pages, s.visited), 1, |hs| - i
  {
    if i == |hs| {
      assert s.admitted[|s.admitted|..] == [];
    } else {
      var s' := if Follows(c, hs[i], s.visited) then Crawl(c, hs[i].value, s).state else s;
      var t := FollowLinks(c, hs, i + 1, s');
      FollowAdmitsLinks(c, hs, i + 1, s');
      if Follows(c, hs[i], s.visited) {
        CrawlAdmitsLinks(c, hs[i].value, s);
        var q := s'.admitted[|s.admitted|..];
        assert LinkAdmissions(c, q) by {
          if q != [] {
            assert q == [q[0]] + q[1..];
            LinkAdmissionsConcat(c, [q[0]], q[1..]);
          }
        }
        SuffixSplit(s.admitted, s'.admitted, t.admitted);
        LinkAdmissionsConcat(c, q, t.admitted[|s'.admitted|..]);
      }
    }
  }

  /** A whole crawl, as `scrape` starts it (empty visited set): at most
      `pages` addresses are visited, each exactly once, the seed first and
      every other one a followed "http" link; every record carries the
      prompt, a page number from 1 to `pages`, normalised content, and the
      records' page numbers never go down. */
  lemma CrawlFromEmpty(c: Config, url: Url, data: seq<Record>)
    requires c.pages >= 0
    ensures var t := Crawl(c, url, State({}, data, [])).state;
      && |t.visited| <= c.pages
      && t.visited == Elems(t.admitted)
      && Distinct(t.admitted)
      && (t.admitted == [] || (t.admitted[0] == url && LinkAdmissions(c, t.admitted[1..])))
      && data <= t.data
      && RecordsFit(c, 0, c.pages, t.data[|data|..])
  {
    var s := State({}, data, []);
    CrawlExtends(c, url, s);
    CrawlAdmitsLinks(c, url, s);
    var t := Crawl(c, url, s).state;
    assert t.admitted[|s.admitted|..] == t.admitted;
    var recs := t.data[|data|..];
    assert RecordsFit(c, 0, |t.visited|, recs);
  }

  /** `filter_data` from the point where `seen` holds the lower-cased
      contents already emitted. `isRelevant` stands for `_is_relevant`
      (spaCy lemmatisation against the keyword list). */
  function Filtered(isRelevant: string -> bool, data: seq<Record>, seen: set<string>): seq<Record>
  {
    if data == [] then []
    else
      var key := Lower(data[0].content);
      if isRelevant(key) && key !in seen then [data[0]] + Filtered(isRelevant, data[1..], seen + {key})
      else Filtered(isRelevant, data[1..], seen)
  }

  /** The filter keeps records in their original order. */
  lemma {:induction false} FilteredSubseq(isRelevant: string -> bool, data: seq<Record>, seen: set<string>)
    ensures IsSubseq(Filtered(isRelevant, data, seen), data)
  {
    if data != [] {
      var key := Lower(data[0].content);
      if isRelevant(key) && key !in seen {
        FilteredSubseq(isRelevant, data[1..], seen + {key});
      } else {
        FilteredSubseq(isRelevant, data[1..], seen);
      }
    }
  }

  /** Every kept record is relevant, and its key was not seen before. */
  lemma {:induction false} FilteredRelevant(isRelevant: string -> bool, data: seq<Record>, seen: set<string>)
    ensures forall x :: x in Filtered(isRelevant, data, seen) ==>
      isRelevant(Lower(x.content)) && Lower(x.content) !in seen && x in data
  {
    if data != [] {
      var key := Lower(data[0].content);
      if isRelevant(key) && key !in seen {
        FilteredRelevant(isRelevant, data[1..], seen + {key});
      } else {
        FilteredRelevant(isRelevant, data[1..], seen);
      }
    }
  }

  /** No two records of `out` have equal lower-cased content. */
  ghost predicate DistinctKeys(out: seq<Record>) {
    forall i, j :: 0 <= i < j < |out| ==> Lower(out[i].content) != Lower(out[j].content)
  }

  /** No two kept records have equal lower-cased content. */
  lemma {:induction false} FilteredDistinctKeys(isRelevant: string -> bool, data: seq<Record>, seen: set<string>)
    ensures DistinctKeys(Filtered(isRelevant, data, seen))
  {
    if data != [] {
      var key := Lower(data[0].content);
      if isRelevant(key) && key !in seen {
        var rest := Filtered(isRelevant, data[1..], seen + {key});
        FilteredDistinctKeys(isRelevant, data[1..], seen + {key});
        FilteredRelevant(isRelevant, data[1..], seen + {key});
        var out := [data[0]] + rest;
        assert Filtered(isRelevant, data, seen) == out;
        forall i, j | 0 <= i < j < |out| ensures Lower(out[i].content) != Lower(out[j].content) {
          assert out[j] == rest[j - 1] && rest[j - 1] in rest;
          if i > 0 {
            assert out[i] == rest[i - 1];
            assert Lower(rest[i - 1].content) != Lower(rest[j - 1].content);
          } else {
            assert out[i] == data[0];
            assert Lower(rest[j - 1].content) !in seen + {key};
          }
        }
      } else {
        FilteredDistinctKeys(isRelevant, data[1..], seen);
        assert Filtered(isRelevant, data, seen) == Filtered(isRelevant, data[1..], seen);
      }
    }
  }

  /** Nothing relevant is lost except as a duplicate: every relevant record
      whose key was not seen before has its key among the kept records. */
  lemma {:induction false} FilteredComplete(isRelevant: string -> bool, data: seq<Record>, seen: set<string>)
    ensures forall x :: x in data && isRelevant(Lower(x.content)) && Lower(x.content) !in seen ==>
      exists y :: y in Filtered(isRelevant, data, seen) && Lower(y.content) == Lower(x.content)
  {
    if data != [] {
      var key := Lower(data[0].content);
      var seen' := if isRelevant(key) && key !in seen then seen + {key} else seen;
      FilteredComplete(isRelevant, data[1..], seen');
      var out := Filtered(isRelevant, data, seen);
      forall x | x in data && isRelevant(Lower(x.content)) && Lower(x.content) !in seen
        ensures exists y :: y in out && Lower(y.content) == Lower(x.content)
      {
        if isRelevant(key) && key !in seen && Lower(x.content) == key {
          assert data[0] in out;
        } else if x == data[0] {
          assert false;
        } else {
          assert x in data[1..];
        }
      }
    }
  }

  /** `data[i]` is a record `filter_data` keeps: its lower-cased content is
      relevant, was not seen before, and no earlier record of `data` has
      the same lower-cased content. */
  ghost predicate FirstRelevant(isRelevant: string -> bool, data: seq<Record>, seen: set<string>, i: int)
    requires 0 <= i < |data|
  {
    var key := Lower(data[i].content);
    && isRelevant(key) && key !in seen
    && forall j :: 0 <= j < i ==> Lower(data[j].content) != key
  }

  /** The `seen` set after the loop looked at `d`. */
  function SeenAfter(isRelevant: string -> bool, d: Record, seen: set<string>): set<string> {
    var key := Lower(d.content);
    if isRelevant(key) && key !in seen then seen + {key} else seen
  }

  lemma FirstRelevantShift(isRelevant: string -> bool, data: seq<Record>, seen: set<string>, i: int)
    requires 0 < i < |data|
    ensures FirstRelevant(isRelevant, data, seen, i)
        <==> FirstRelevant(isRelevant, data[1..], SeenAfter(isRelevant, data[0], seen), i - 1)
  {
    var key := Lower(data[i].content);
    assert data[1..][i - 1] == data[i];
    if forall j :: 0 <= j < i - 1 ==> Lower(data[1..][j].content) != key {
      forall j | 0 < j < i ensures Lower(data[j].content) != key {
        assert data[j] == data[1..][j - 1];
      }
    }
  }

  /** Of several relevant records with the same lower-cased content, the
      first is the one kept: a record at position `i` is kept when it is
      the first relevant, unseen one with its content, and every kept
      record is such a first occurrence. */
  lemma {:induction false} FilteredFirstOccurrences(isRelevant: string -> bool, data: seq<Record>, seen: set<string>)
    ensures forall i :: 0 <= i < |data| && FirstRelevant(isRelevant, data, seen, i) ==>
      data[i] in Filtered(isRelevant, data, seen)
    ensures forall x :: x in Filtered(isRelevant, data, seen) ==>
      exists i :: 0 <= i < |data| && data[i] == x && FirstRelevant(isRelevant, data, seen, i)
  {
    if data != [] {
      var key := Lower(data[0].content);
      var kept := isRelevant(key) && key !in seen;
      var seen' := SeenAfter(isRelevant, data[0], seen);
      var rest := Filtered(isRelevant, data[1..], seen');
      var out := Filtered(isRelevant, data, seen);
      assert out == (if kept then [data[0]] else []) + rest;
      FilteredFirstOccurrences(isRelevant, data[1..], seen');
      forall i | 0 <= i < |data| && FirstRelevant(isRelevant, data, seen, i) ensures data[i] in out {
        if i > 0 {
          FirstRelevantShift(isRelevant, data, seen, i);
          assert data[1..][i - 1] == data[i];
        }
      }
      forall x | x in out
        ensures exists i :: 0 <= i < |data| && data[i] == x && FirstRelevant(isRelevant, data, seen, i)
      {
        if kept && x == data[0] {
          assert FirstRelevant(isRelevant, data, seen, 0);
        } else {
          assert x in rest;
          var i :| 0 <= i < |data[1..]| && data[1..][i] == x && FirstRelevant(isRelevant, data[1..], seen', i);
          FirstRelevantShift(isRelevant, data, seen, i + 1);
          assert data[i + 1] == x;
        }
      }
    }
  }

  /** A worked case: of "Job" and "JOB", both relevant, only the first is
      kept. */
  lemma FilteredKeepsFirstDuplicate()
    ensures Filtered(key => true, [Record("p", 1, "Job"), Record("p", 1, "JOB")], {})
         == [Record("p", 1, "Job")]
  {
    assert Lower("Job") == "job";
    assert Lower("JOB") == "job";
    var data := [Record("p", 1, "Job"), Record("p", 1, "JOB")];
    assert data[1..][1..] == [];
  }

  /** Filtering an already filtered list changes nothing. */
  lemma {:induction false} FilteredIdempotent(isRelevant: string -> bool, data: seq<Record>, seen: set<string>)
    ensures Filtered(isRelevant, Filtered(isRelevant, data, seen), seen) == Filtered(isRelevant, data, seen)
  {
    if data != [] {
      var key := Lower(data[0].content);
      if isRelevant(key) && key !in seen {
        var rest := Filtered(isRelevant, data[1..], seen + {key});
        FilteredIdempotent(isRelevant, data[1..], seen + {key});
        assert ([data[0]] + rest)[0] == data[0] && ([data[0]] + rest)[1..] == rest;
      } else {
        FilteredIdempotent(isRelevant, data[1..], seen);
      }
    }
  }

  /** What `scrape` returns: the filtered records, or the exception that
      escaped the crawl (rufus.py does not catch it). */
  datatype Scraped = Kept(records: seq<Record>) | Escaped(failure: Failure)

  class Client {
    const maxRetries: nat
    /** `self.all_data`: every record extracted since the client was made. */
    var allData: seq<Record>
    /** The order of the `visited.add` calls made by this client. */
    ghost var admitted: seq<Url>

    constructor (maxRetries: nat)
      ensures this.maxRetries == maxRetries && allData == [] && admitted == []
    {
      this.maxRetries := maxRetries;
      allData := [];
      admitted := [];
    }

    /** `scrape`: crawl from `url` with an empty visited set, then filter
        `all_data` (which still holds the records of earlier calls). */
    method Scrape(c: Config, url: Url, isRelevant: string -> bool) returns (result: Scraped)
      modifies this
      ensures var r := Crawl(c, url, State({}, old(allData), old(admitted)));
        && allData == r.state.data && admitted == r.state.admitted
        && result == if r.outcome.Raised? then Escaped(r.outcome.failure)
                     else Kept(Filtered(isRelevant, allData, {}))
    {
      var visited, outcome := CrawlLinks(c, url, {});
      if outcome.Raised? {
        return Escaped(outcome.failure);
      }
      var records := FilterData(allData, isRelevant);
      result := Kept(records);
    }

    /** `_crawl_links`; `visited` is the shared set, passed in and handed
        back. */
    method CrawlLinks(c: Config, url: Url, visited: set<Url>) returns (visited': set<Url>, outcome: Outcome)
      modifies this
      decreases Slack(c.pages, visited)
      ensures Crawl(c, url, State(visited, old(allData), old(admitted)))
           == Step(State(visited', allData, admitted), outcome)
    {
      if |visited| >= c.pages || url in visited {
        return visited, Done;
      }
      visited' := visited + {url};
      admitted := admitted + [url];
      var attempts, sleeps, settled := Navigation.NavigateToUrl(c.web, url, maxRetries);
      var found := ExtractDataFromPage(c, url, |visited'|);
      if !found {
        return visited', Done;
      }
      match PageAt(c.web, url).anchors {
        case AnchorsFailed(f) =>
          return visited', Raised(f);
        case Anchors(hs) =>
          ghost var s2 := State(visited', allData, admitted);
          var i := 0;
          while i < |hs|
            invariant i <= |hs|
            invariant visited <= visited' && |visited| < |visited'|
            invariant FollowLinks(c, hs, i, State(visited', allData, admitted)) == FollowLinks(c, hs, 0, s2)
          {
            var h := hs[i];
            if Followable(h, visited') {
              var load := OpenAttempt(c.web, h.value, 0);
              if load == Done {
                var raised;
                visited', raised := CrawlLinks(c, h.value, visited');
              }
            }
            i := i + 1;
          }
          outcome := Done;
      }
    }

    /** `_extract_data_from_page`: if the selector is found, append one
        record per matched element; otherwise raise (reported as `false`)
        before appending anything. */
    method ExtractDataFromPage(c: Config, url: Url, pageNum: int) returns (found: bool)
      modifies this
      ensures found == PageAt(c.web, url).selectorFound
      ensures allData == old(allData)
        + if found then Extraction.PageRecords(c.prompt, pageNum, PageAt(c.web, url).texts) else []
      ensures admitted == old(admitted)
    {
      var p := PageAt(c.web, url);
      if !p.selectorFound {
        return false;
      }
      var i := 0;
      while i < |p.texts|
        invariant i <= |p.texts|
        invariant allData == old(allData) + Extraction.PageRecords(c.prompt, pageNum, p.texts[..i])
        invariant admitted == old(admitted)
      {
        assert p.texts[..i + 1] == p.texts[..i] + [p.texts[i]];
        Extraction.PageRecordsAppend(c.prompt, pageNum, p.texts[..i], p.texts[i]);
        allData := allData + [Record(c.prompt, pageNum, Collapse(p.texts[i]))];
        i := i + 1;
      }
      assert p.texts[..i] == p.texts;
      found := true;
    }

    /** `filter_data`. */
    method FilterData(data: seq<Record>, isRelevant: string -> bool) returns (filtered: seq<Record>)
      ensures filtered == Filtered(isRelevant, data, {})
    {
      filtered := [];
      var seen: set<string> := {};
      for i := 0 to |data|
        invariant filtered + Filtered(isRelevant, data[i..], seen) == Filtered(isRelevant, data, {})
      {
        assert data[i..][0] == data[i] && data[i..][1..] == data[i + 1..];
        var content := Lower(data[i].content);
        if isRelevant(content) && content !in seen {
          filtered := filtered + [data[i]];
          seen := seen + {content};
        }
      }
      assert data[|data|..] == [];
    }
  }
}
