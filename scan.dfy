/** The scans Python's `re` builds on a pattern: `re.search` (leftmost
    match) and `re.findall` (left to right, without overlap). They are
    stated for any matcher, a function that says how the pattern matches
    starting exactly at a position; module Regex supplies the matchers of
    the patterns the extractors use. */
module Scan {
  import opened Text

  /** A match of the text `s[start..end]`, with the texts of its capture groups. */
  datatype Match = Match(start: nat, end: nat, groups: seq<string>)

  /** How a pattern matches starting exactly at a position, if it does;
      every match it reports is valid. */
  type Matcher = f: (string, nat) -> Option<Match> | WellFormed(f) witness NoMatch

  function NoMatch(s: string, i: nat): Option<Match> { None }

  /** A match found at `i` starts there, is not empty and stays inside `s`. */
  predicate ValidMatch(s: string, i: nat, m: Match)
  {
    m.start == i && i < m.end <= |s|
  }

  /** Every match `f` reports is valid. */
  ghost predicate WellFormed(f: (string, nat) -> Option<Match>)
  {
    forall s: string, i: nat :: f(s, i).Some? ==> ValidMatch(s, i, f(s, i).value)
  }

  /** The text a match covers (`match.group()`). */
  function Matched(s: string, m: Match): string
    requires m.start <= m.end <= |s|
  {
    s[m.start..m.end]
  }

  // ---------------------------------------------------------------- search

  /** `re.search` from position `i` on: positions are tried left to right,
      up to and including the end of the string, and the first one at which
      the pattern matches gives the result. */
  function SearchFrom(f: Matcher, s: string, i: nat): (r: Option<Match>)
    requires i <= |s|
    ensures r.Some? ==> i <= r.value.start <= |s| && f(s, r.value.start) == r
    ensures r.Some? ==> ValidMatch(s, r.value.start, r.value)
    ensures r.Some? ==> forall j | i <= j < r.value.start :: f(s, j).None?
    ensures r.None? ==> forall j | i <= j <= |s| :: f(s, j).None?
    decreases |s| - i
  {
    var m := f(s, i);
    assert m.Some? ==> ValidMatch(s, i, m.value);
    if m.Some? then m
    else if i == |s| then None
    else SearchFrom(f, s, i + 1)
  }

  /** `re.search(pattern, s)`. */
  function Search(f: Matcher, s: string): (r: Option<Match>)
    ensures r.Some? ==> r.value.start <= |s| && f(s, r.value.start) == r
    ensures r.Some? ==> forall j | 0 <= j < r.value.start :: f(s, j).None?
    ensures r.None? ==> forall j | 0 <= j <= |s| :: f(s, j).None?
  {
    SearchFrom(f, s, 0)
  }

  /** `re.search` returns the match at the leftmost position where the pattern matches. */
  lemma {:induction false} SearchFindsLeftmost(f: Matcher, s: string, i: nat)
    requires i <= |s| && f(s, i).Some?
    requires forall j | 0 <= j < i :: f(s, j).None?
    ensures Search(f, s) == f(s, i)
  {
  }

  /** `re.search` finds nothing when the pattern matches at no position. */
  lemma SearchFindsNothing(f: Matcher, s: string)
    requires forall j | 0 <= j <= |s| :: f(s, j).None?
    ensures Search(f, s).None?
  {
  }

  /** The `for pattern in patterns` loop of the date extractors: the
      matchers are tried in list order, each with `re.search`, and the first
      one that matches anywhere gives the result, with its index in the list. */
  function FirstMatchFrom(fs: seq<Matcher>, s: string, k: nat): (r: Option<(nat, Match)>)
    ensures r.Some? ==> k <= r.value.0 < |fs| && Search(fs[r.value.0], s) == Some(r.value.1)
    ensures r.Some? ==> forall q | k <= q < r.value.0 :: Search(fs[q], s).None?
    ensures r.None? ==> forall q | k <= q < |fs| :: Search(fs[q], s).None?
    decreases |fs| - k
  {
    if k >= |fs| then None
    else
      var m := Search(fs[k], s);
      if m.Some? then Some((k, m.value)) else FirstMatchFrom(fs, s, k + 1)
  }

  // ---------------------------------------------------------------- findall

  /** `re.findall` from position `i` on: after a match the scan resumes at its
      end, after a failure one position further. */
  function FindAllFrom(f: Matcher, s: string, i: nat): seq<Match>
    requires i <= |s|
    decreases |s| - i
  {
    var m := f(s, i);
    if m.Some? then
      assert ValidMatch(s, i, m.value);
      [m.value] + FindAllFrom(f, s, m.value.end)
    else if i == |s| then []
    else FindAllFrom(f, s, i + 1)
  }

  /** `re.findall(pattern, s)`, as the list of matches it is built from. */
  function FindAll(f: Matcher, s: string): seq<Match>
  {
    FindAllFrom(f, s, 0)
  }

  /** Every match the scan lists is the match the pattern makes at its start. */
  lemma {:induction false} FindAllSound(f: Matcher, s: string, i: nat, k: nat)
    requires i <= |s| && k < |FindAllFrom(f, s, i)|
    ensures var m := FindAllFrom(f, s, i)[k]; i <= m.start <= |s| && f(s, m.start) == Some(m)
    decreases |s| - i
  {
    var m := f(s, i);
    if m.None? {
      FindAllSound(f, s, i + 1, k);
    } else if k > 0 {
      assert ValidMatch(s, i, m.value);
      FindAllSound(f, s, m.value.end, k - 1);
    }
  }

  /** The scan is empty exactly when no position from `i` on starts a match. */
  lemma {:induction false} FindAllEmptyIff(f: Matcher, s: string, i: nat)
    requires i <= |s|
    ensures FindAllFrom(f, s, i) == [] <==> forall j | i <= j <= |s| :: f(s, j).None?
    decreases |s| - i
  {
    if f(s, i).None? && i < |s| {
      FindAllEmptyIff(f, s, i + 1);
    }
  }

  /** The scan resumed at the end of the string finds nothing. */
  lemma FindAllAtEnd(f: Matcher, s: string)
    ensures FindAllFrom(f, s, |s|) == []
  {
    assert f(s, |s|).Some? ==> ValidMatch(s, |s|, f(s, |s|).value);
  }

  /** A failure at `i` moves the scan one position on. */
  lemma FindAllSkip(f: Matcher, s: string, i: nat)
    requires i < |s| && f(s, i).None?
    ensures FindAllFrom(f, s, i) == FindAllFrom(f, s, i + 1)
  {
  }

  /** A match at `i` is listed, and the scan resumes at its end. */
  lemma FindAllTake(f: Matcher, s: string, i: nat)
    requires i <= |s| && f(s, i).Some?
    ensures f(s, i).value.end <= |s|
    ensures FindAllFrom(f, s, i) == [f(s, i).value] + FindAllFrom(f, s, f(s, i).value.end)
  {
    assert ValidMatch(s, i, f(s, i).value);
  }

  /** No position before the first match of the scan starts a match. */
  lemma {:induction false} FindAllBeforeFirst(f: Matcher, s: string, i: nat, j: nat)
    requires i <= j <= |s| && FindAllFrom(f, s, i) != [] && j < FindAllFrom(f, s, i)[0].start
    ensures f(s, j).None?
    decreases |s| - i
  {
    if f(s, i).None? {
      FindAllSkip(f, s, i);
      if i < j {
        FindAllBeforeFirst(f, s, i + 1, j);
      }
    } else {
      FindAllTake(f, s, i);
    }
  }

  /** What follows match `k` of the scan is the scan resumed at that match's end. */
  lemma {:induction false} FindAllSuffix(f: Matcher, s: string, i: nat, k: nat)
    requires i <= |s| && k < |FindAllFrom(f, s, i)|
    ensures FindAllFrom(f, s, i)[k].end <= |s|
    ensures FindAllFrom(f, s, i)[k + 1..] == FindAllFrom(f, s, FindAllFrom(f, s, i)[k].end)
    decreases |s| - i
  {
    var r := FindAllFrom(f, s, i);
    if f(s, i).None? {
      FindAllSkip(f, s, i);
      FindAllSuffix(f, s, i + 1, k);
    } else {
      var m := f(s, i).value;
      FindAllTake(f, s, i);
      var rest := FindAllFrom(f, s, m.end);
      assert r == [m] + rest;
      if k > 0 {
        FindAllSuffix(f, s, m.end, k - 1);
        ConsIndex(m, rest, k);
        assert r[k] == rest[k - 1];
        assert rest[k..] == FindAllFrom(f, s, rest[k - 1].end);
      } else {
        assert r[0] == m;
        assert r[1..] == rest;
      }
    }
  }

  /** Consecutive matches of `re.findall`'s scan do not overlap, and no
      position between them starts a match. */
  lemma FindAllGaps(f: Matcher, s: string, i: nat, k: nat)
    requires i <= |s| && k + 1 < |FindAllFrom(f, s, i)|
    ensures var r := FindAllFrom(f, s, i);
      r[k].end <= r[k + 1].start && forall j | r[k].end <= j < r[k + 1].start :: f(s, j).None?
  {
    var r := FindAllFrom(f, s, i);
    FindAllSuffix(f, s, i, k);
    var end := r[k].end;
    var rest := FindAllFrom(f, s, end);
    assert r[k + 1] == rest[0];
    FindAllSound(f, s, end, 0);
    forall j | end <= j < rest[0].start ensures f(s, j).None? {
      FindAllBeforeFirst(f, s, end, j);
    }
  }

  /** After the last match of `re.findall`'s scan no position starts a match. */
  lemma {:induction false} FindAllTail(f: Matcher, s: string, i: nat, j: nat)
    requires i <= |s| && FindAllFrom(f, s, i) != []
    requires Last(FindAllFrom(f, s, i)).end <= j <= |s|
    ensures f(s, j).None?
    decreases |s| - i
  {
    var r := FindAllFrom(f, s, i);
    var m := f(s, i);
    if m.None? {
      assert i < |s| && r == FindAllFrom(f, s, i + 1);
      FindAllTail(f, s, i + 1, j);
    } else {
      assert ValidMatch(s, i, m.value);
      var rest := FindAllFrom(f, s, m.value.end);
      assert r == [m.value] + rest;
      if rest != [] {
        assert Last(r) == Last(rest);
        FindAllTail(f, s, m.value.end, j);
      } else {
        assert Last(r) == m.value;
        FindAllEmptyIff(f, s, m.value.end);
      }
    }
  }

  /** Indexing and slicing past the head of `[x] + xs`. */
  lemma ConsIndex<T>(x: T, xs: seq<T>, k: nat)
    requires 0 < k <= |xs|
    ensures ([x] + xs)[k] == xs[k - 1] && ([x] + xs)[k + 1..] == xs[k..]
  {
  }

  function Last(r: seq<Match>): Match
    requires r != []
  {
    r[|r| - 1]
  }
}
