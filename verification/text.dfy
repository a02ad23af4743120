/** Strings as the crawler's Python code handles them: regular-expression
    whitespace, `re.sub(r'\s+', ' ', ...)`, `str.lower()`, `startswith`
    and the substring test `k in s`. */
module Text {

  /** The characters Python's `\s` matches in a `str` pattern (the
      characters for which `str.isspace()` holds). */
  predicate IsSpace(ch: char) {
    || ch == ' '
    || ('\t' <= ch <= '\r')
    || ('\U{1c}' <= ch <= '\U{1f}')
    || ch == '\U{85}' || ch == '\U{a0}' || ch == '\U{1680}'
    || ('\U{2000}' <= ch <= '\U{200a}')
    || ch == '\U{2028}' || ch == '\U{2029}' || ch == '\U{202f}'
    || ch == '\U{205f}' || ch == '\U{3000}'
  }

  /** Every whitespace character is a plain space and no two whitespace
      characters are adjacent: the shape of a collapsed string. */
  ghost predicate Normalised(s: string) {
    forall i :: 0 <= i < |s| && IsSpace(s[i]) ==>
      s[i] == ' ' && (i + 1 < |s| ==> !IsSpace(s[i + 1]))
  }

  /** The non-whitespace characters of `s`, in order. */
  function NonSpaces(s: string): (r: string)
    ensures |r| <= |s|
    ensures forall i :: 0 <= i < |r| ==> !IsSpace(r[i])
  {
    if s == [] then []
    else if IsSpace(s[0]) then NonSpaces(s[1..])
    else [s[0]] + NonSpaces(s[1..])
  }

  /** `s` with its leading whitespace run removed. */
  function DropSpaces(s: string): (r: string)
    ensures |r| <= |s| && r == s[|s| - |r|..]
    ensures r == [] || !IsSpace(r[0])
    ensures forall i :: 0 <= i < |s| - |r| ==> IsSpace(s[i])
  {
    if s != [] && IsSpace(s[0]) then DropSpaces(s[1..]) else s
  }

  /** `re.sub(r'\s+', ' ', s)`: every maximal run of whitespace becomes
      one space. */
  function Collapse(s: string): string
    decreases |s|
  {
    if s == [] then []
    else if IsSpace(s[0]) then [' '] + Collapse(DropSpaces(s[1..]))
    else [s[0]] + Collapse(s[1..])
  }

  lemma CollapseHead(s: string)
    requires s != [] && !IsSpace(s[0])
    ensures Collapse(s) != [] && Collapse(s)[0] == s[0]
  {
  }

  lemma NormalisedCons(c: char, t: string)
    requires Normalised(t)
    requires IsSpace(c) ==> c == ' ' && (t == [] || !IsSpace(t[0]))
    ensures Normalised([c] + t)
  {
    forall i | 0 <= i < |[c] + t| && IsSpace(([c] + t)[i])
      ensures ([c] + t)[i] == ' ' && (i + 1 < |[c] + t| ==> !IsSpace(([c] + t)[i + 1]))
    {
      if i > 0 { assert ([c] + t)[i] == t[i - 1]; }
    }
  }

  /** The result of a collapse is normalised. */
  lemma {:induction false} CollapseNormalised(s: string)
    ensures Normalised(Collapse(s))
    decreases |s|
  {
    if s == [] {
    } else if IsSpace(s[0]) {
      var d := DropSpaces(s[1..]);
      CollapseNormalised(d);
      if d != [] { CollapseHead(d); }
      NormalisedCons(' ', Collapse(d));
    } else {
      CollapseNormalised(s[1..]);
      NormalisedCons(s[0], Collapse(s[1..]));
    }
  }

  lemma {:induction false} NonSpacesDrop(s: string)
    ensures NonSpaces(DropSpaces(s)) == NonSpaces(s)
  {
    if s != [] && IsSpace(s[0]) { NonSpacesDrop(s[1..]); }
  }

  /** Collapsing keeps every non-whitespace character, in order, and adds
      none. */
  lemma {:induction false} CollapseKeepsNonSpaces(s: string)
    ensures NonSpaces(Collapse(s)) == NonSpaces(s)
    decreases |s|
  {
    if s == [] {
    } else if IsSpace(s[0]) {
      var d := DropSpaces(s[1..]);
      CollapseKeepsNonSpaces(d);
      NonSpacesDrop(s[1..]);
      assert ([' '] + Collapse(d))[1..] == Collapse(d);
    } else {
      CollapseKeepsNonSpaces(s[1..]);
      assert ([s[0]] + Collapse(s[1..]))[1..] == Collapse(s[1..]);
    }
  }

  /** A string that is already normalised is left as it is. */
  lemma {:induction false} CollapseFixesNormalised(s: string)
    requires Normalised(s)
    ensures Collapse(s) == s
    decreases |s|
  {
    if s == [] {
    } else {
      assert Normalised(s[1..]) by {
        forall i | 0 <= i < |s[1..]| && IsSpace(s[1..][i])
          ensures s[1..][i] == ' ' && (i + 1 < |s[1..]| ==> !IsSpace(s[1..][i + 1]))
        {
          assert s[1..][i] == s[i + 1];
        }
      }
      if IsSpace(s[0]) {
        assert s[1..] == [] || !IsSpace(s[1]);
        assert DropSpaces(s[1..]) == s[1..];
      }
      CollapseFixesNormalised(s[1..]);
    }
  }

  /** Applying the substitution twice is the same as applying it once. */
  lemma CollapseIdempotent(s: string)
    ensures Collapse(Collapse(s)) == Collapse(s)
  {
    CollapseNormalised(s);
    CollapseFixesNormalised(Collapse(s));
  }

  lemma {:induction false} DropSpacesOfRun(w: string, x: string)
    requires forall i :: 0 <= i < |w| ==> IsSpace(w[i])
    requires x == [] || !IsSpace(x[0])
    ensures DropSpaces(w + x) == x
  {
    if w != [] {
      assert (w + x)[1..] == w[1..] + x;
      DropSpacesOfRun(w[1..], x);
    } else {
      assert w + x == x;
    }
  }

  /** A non-empty whitespace run in front of text that does not start with
      whitespace turns into exactly one space. */
  lemma CollapseRun(w: string, x: string)
    requires |w| > 0 && forall i :: 0 <= i < |w| ==> IsSpace(w[i])
    requires x == [] || !IsSpace(x[0])
    ensures Collapse(w + x) == [' '] + Collapse(x)
  {
    assert (w + x)[0] == w[0];
    assert (w + x)[1..] == w[1..] + x;
    DropSpacesOfRun(w[1..], x);
  }

  /** A non-whitespace character is copied through unchanged. */
  lemma CollapseKeepsChar(c: char, x: string)
    requires !IsSpace(c)
    ensures Collapse([c] + x) == [c] + Collapse(x)
  {
    assert ([c] + x)[1..] == x;
  }

  /** Words without whitespace separated by a whitespace run: the run
      becomes one space and the words are kept. */
  lemma {:induction false} CollapseJoin(x: string, w: string, y: string)
    requires forall i :: 0 <= i < |x| ==> !IsSpace(x[i])
    requires |w| > 0 && forall i :: 0 <= i < |w| ==> IsSpace(w[i])
    requires y == [] || !IsSpace(y[0])
    ensures Collapse(x + w + y) == x + [' '] + Collapse(y)
    decreases |x|
  {
    if x == [] {
      assert x + w + y == w + y;
      CollapseRun(w, y);
    } else {
      assert x + w + y == [x[0]] + (x[1..] + w + y);
      CollapseKeepsChar(x[0], x[1..] + w + y);
      CollapseJoin(x[1..], w, y);
    }
  }

  /** A worked case: a line break, a tab and spaces between two words
      become one space. */
  lemma CollapseExample()
    ensures Collapse("career \n\t fair") == "career fair"
  {
    var x, w, y := "career", " \n\t ", "fair";
    assert forall i :: 0 <= i < |x| ==> !IsSpace(x[i]);
    assert forall i :: 0 <= i < |w| ==> IsSpace(w[i]);
    assert Normalised(y) by {
      assert forall i :: 0 <= i < |y| ==> !IsSpace(y[i]);
    }
    CollapseJoin(x, w, y);
    CollapseFixesNormalised(y);
    assert x + w + y == "career \n\t fair";
    assert x + [' '] + y == "career fair";
  }

  /** `str.lower()` on one character. Only the ASCII letters are mapped. */
  function LowerChar(ch: char): char {
    if 'A' <= ch <= 'Z' then (ch as int + 32) as char else ch
  }

  /** `str.lower()`, ASCII letters only. */
  function Lower(s: string): (r: string)
    ensures |r| == |s|
  {
    seq(|s|, i requires 0 <= i < |s| => LowerChar(s[i]))
  }

  /** Lower-casing is idempotent: a lower-cased key lower-cases to itself. */
  lemma LowerIdempotent(s: string)
    ensures Lower(Lower(s)) == Lower(s)
    ensures forall i :: 0 <= i < |s| ==> !('A' <= Lower(s)[i] <= 'Z')
  {
  }

  /** `s.startswith(p)`. */
  predicate StartsWith(s: string, p: string) {
    p <= s
  }

  /** The substring test `k in s`. */
  predicate Contains(s: string, k: string)
    decreases |s|
  {
    k <= s || (s != [] && Contains(s[1..], k))
  }

  /** `k` occurs in `s` starting at position `i`. */
  predicate OccursAt(s: string, k: string, i: int) {
    0 <= i && i + |k| <= |s| && s[i..i + |k|] == k
  }

  /** `k in s` holds exactly when `k` occurs at some position of `s`. */
  lemma {:induction false} ContainsAt(s: string, k: string)
    ensures Contains(s, k) <==> exists i :: OccursAt(s, k, i)
    decreases |s|
  {
    if k <= s {
      assert OccursAt(s, k, 0);
    } else if s == [] {
    } else {
      ContainsAt(s[1..], k);
      if exists i :: OccursAt(s, k, i) {
        var i :| OccursAt(s, k, i);
        assert i != 0;
        assert OccursAt(s[1..], k, i - 1);
      }
      if exists j :: OccursAt(s[1..], k, j) {
        var j :| OccursAt(s[1..], k, j);
        assert OccursAt(s, k, j + 1);
      }
    }
  }
}
