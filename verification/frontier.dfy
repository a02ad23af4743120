/** The state a crawl threads through its recursion, the admission guard
    both variants share (`if len(visited) >= pages or url in visited:
    return`, then `visited.add(url)`), and the invariant every crawl step
    keeps. */
module Frontier {
  import opened Text
  import opened Web

  /** The crawl state: the shared visited set, the `all_data` accumulator,
      and the order in which addresses were admitted (the order of the
      `visited.add` calls, kept so that "no address is crawled twice" can
      be stated). */
  datatype State = State(visited: set<Url>, data: seq<Record>, admitted: seq<Url>)

  /** The result of one `_crawl_links` call: the new state, and whether the
      call raised. */
  datatype Step = Step(state: State, outcome: Outcome)

  /** How many more addresses the budget allows; it strictly drops on every
      admission, which is why the recursion terminates. */
  function Slack(pages: int, visited: set<Url>): nat {
    if |visited| < pages then pages - |visited| else 0
  }

  /** The guard at the head of `_crawl_links`. */
  predicate Admissible(pages: int, s: State, url: Url) {
    |s.visited| < pages && url !in s.visited
  }

  /** `visited.add(url)`. */
  function Admit(s: State, url: Url): State {
    s.(visited := s.visited + {url}, admitted := s.admitted + [url])
  }

  /** Admission uses one unit of the budget and records the address. */
  lemma AdmitUsesBudget(pages: int, s: State, url: Url)
    requires Admissible(pages, s, url)
    ensures |Admit(s, url).visited| == |s.visited| + 1 <= pages
    ensures Slack(pages, Admit(s, url).visited) < Slack(pages, s.visited)
    ensures url in Admit(s, url).visited
  {
  }

  function Elems(q: seq<Url>): set<Url> {
    set u | u in q
  }

  predicate Distinct(q: seq<Url>) {
    forall i, j :: 0 <= i < j < |q| ==> q[i] != q[j]
  }

  /** The records of one crawl step: each carries the prompt unchanged, a
      page number between the visited count before and after the step,
      normalised content, and page numbers never go down along the list. */
  ghost predicate RecordsFit(c: Config, lo: int, hi: int, recs: seq<Record>) {
    && (forall i :: 0 <= i < |recs| ==>
          recs[i].prompt == c.prompt && lo < recs[i].page <= hi && Normalised(recs[i].content))
    && (forall i, j :: 0 <= i < j < |recs| ==> recs[i].page <= recs[j].page)
  }

  /** The visited set grows by exactly the addresses admitted from `s` to
      `t`, each admitted once and none of them visited before. */
  ghost predicate FreshGrowth(s: State, t: State) {
    && s.admitted <= t.admitted
    && t.visited == s.visited + Elems(t.admitted[|s.admitted|..])
    && Distinct(t.admitted[|s.admitted|..])
    && (forall u :: u in t.admitted[|s.admitted|..] ==> u !in s.visited)
  }

  /** What every crawl step from `s` to `t` guarantees:
      - the visited set grows by fresh admissions only (`FreshGrowth`);
      - the budget bound `len(visited) <= pages` is kept;
      - `all_data` only grows at the end, by records that fit the pages
        admitted in between. */
  ghost predicate Extends(c: Config, s: State, t: State) {
    && FreshGrowth(s, t)
    && (|s.visited| <= c.pages ==> |t.visited| <= c.pages)
    && |s.visited| <= |t.visited|
    && s.data <= t.data
    && RecordsFit(c, |s.visited|, |t.visited|, t.data[|s.data|..])
  }

  lemma ExtendsRefl(c: Config, s: State)
    ensures Extends(c, s, s)
  {
    assert s.admitted[|s.admitted|..] == [];
    assert s.data[|s.data|..] == [];
  }

  /** Two runs of fresh admissions, the second avoiding everything visited
      after the first, form one run of fresh admissions. */
  lemma FreshConcat(v: set<Url>, a: seq<Url>, b: seq<Url>)
    requires Distinct(a) && (forall x :: x in a ==> x !in v)
    requires Distinct(b) && (forall x :: x in b ==> x !in v + Elems(a))
    ensures Distinct(a + b) && (forall x :: x in a + b ==> x !in v)
    ensures Elems(a + b) == Elems(a) + Elems(b)
  {
    forall i, j | 0 <= i < j < |a + b| ensures (a + b)[i] != (a + b)[j] {
      if j >= |a| && i < |a| {
        assert (a + b)[i] == a[i] && a[i] in a && a[i] in Elems(a);
        assert (a + b)[j] == b[j - |a|] && b[j - |a|] in b;
      } else if j >= |a| {
        assert (a + b)[i] == b[i - |a|] && (a + b)[j] == b[j - |a|];
      } else {
        assert (a + b)[i] == a[i] && (a + b)[j] == a[j];
      }
    }
  }

  lemma RecordsFitConcat(c: Config, lo: int, mid: int, hi: int, x: seq<Record>, y: seq<Record>)
    requires RecordsFit(c, lo, mid, x) && RecordsFit(c, mid, hi, y) && lo <= mid <= hi
    ensures RecordsFit(c, lo, hi, x + y)
  {
    forall i | 0 <= i < |x + y|
      ensures (x + y)[i].prompt == c.prompt && lo < (x + y)[i].page <= hi
           && Normalised((x + y)[i].content)
    {
      if i < |x| { assert (x + y)[i] == x[i]; } else { assert (x + y)[i] == y[i - |x|]; }
    }
    forall i, j | 0 <= i < j < |x + y| ensures (x + y)[i].page <= (x + y)[j].page {
      if j < |x| {
        assert (x + y)[i] == x[i] && (x + y)[j] == x[j];
      } else if i >= |x| {
        assert (x + y)[i] == y[i - |x|] && (x + y)[j] == y[j - |x|];
      } else {
        assert (x + y)[i] == x[i] && (x + y)[j] == y[j - |x|];
      }
    }
  }

  lemma SuffixSplit<T>(p: seq<T>, q: seq<T>, r: seq<T>)
    requires p <= q && q <= r
    ensures p <= r && r[|p|..] == q[|p|..] + r[|q|..]
  {
  }

  lemma FreshGrowthTrans(s: State, t: State, u: State)
    requires FreshGrowth(s, t) && FreshGrowth(t, u)
    ensures FreshGrowth(s, u)
  {
    var a, b := t.admitted[|s.admitted|..], u.admitted[|t.admitted|..];
    SuffixSplit(s.admitted, t.admitted, u.admitted);
    FreshConcat(s.visited, a, b);
  }

  lemma DataTrans(c: Config, s: State, t: State, u: State)
    requires |s.visited| <= |t.visited| <= |u.visited|
    requires s.data <= t.data && RecordsFit(c, |s.visited|, |t.visited|, t.data[|s.data|..])
    requires t.data <= u.data && RecordsFit(c, |t.visited|, |u.visited|, u.data[|t.data|..])
    ensures s.data <= u.data && RecordsFit(c, |s.visited|, |u.visited|, u.data[|s.data|..])
  {
    SuffixSplit(s.data, t.data, u.data);
    RecordsFitConcat(c, |s.visited|, |t.visited|, |u.visited|, t.data[|s.data|..], u.data[|t.data|..]);
  }

  lemma ExtendsTrans(c: Config, s: State, t: State, u: State)
    requires Extends(c, s, t) && Extends(c, t, u)
    ensures Extends(c, s, u)
  {
    FreshGrowthTrans(s, t, u);
    DataTrans(c, s, t, u);
  }

  /** Admitting `url` and appending the records of its page (numbered with
      the new visited count) is a crawl step. */
  lemma AdmitExtends(c: Config, s: State, url: Url, recs: seq<Record>)
    requires Admissible(c.pages, s, url)
    requires RecordsFit(c, |s.visited|, |s.visited| + 1, recs)
    ensures Extends(c, s, Admit(s, url).(data := s.data + recs))
  {
    var t := Admit(s, url).(data := s.data + recs);
    assert t.admitted[|s.admitted|..] == [url];
    assert Elems([url]) == {url};
    assert t.data[|s.data|..] == recs;
  }
}
