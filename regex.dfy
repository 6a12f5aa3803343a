/** The part of Python's `re` the extractors rely on, for the fixed set of
    patterns they use. Each pattern has one matcher that tries the pattern's
    alternatives at a given position in the order Python's backtracking
    engine does (greedy counted repeats give back one character at a time,
    `?` tries the character first) and reports the first success.
    `re.match` is `MatchAt(p, s, 0)`: anchored at the start, trailing text
    ignored. The scans built on the matchers are in module Scan. */
module Regex {
  import opened Text
  import opened Scan

  datatype Pattern =
    | IfscCode          // [A-Z]{4}0[0-9A-Z]{6}
    | AmountToken       // (\d+\.\d{2})
    | NumDateBounded    // \b\d{2}[-.]\d{2}[-.]\d{4}\b
    | MonDateDash       // \b\d{1,2}-[A-Za-z]{3}-\d{4}\b
    | MonDateSlash      // \b\d{1,2}[/-][A-Za-z]{3}[/-]\d{4}\b
    | MonDateGroups     // (\d{1,2})[-/.]([A-Z]{3})[-/.](\d{4})
    | NumDateGroups     // (\d{2})[.-](\d{2})[.-](\d{4})
    | MonDateLoose      // (\d{1,2})[-/\s]?([A-Z]{3})[-/\s]?(\d{4})

  // ---------------------------------------------------------------- classes

  predicate DigitsAt(s: string, i: nat, n: nat)
  {
    i + n <= |s| && forall k | i <= k < i + n :: IsDigit(s[k])
  }

  predicate UppersAt(s: string, i: nat, n: nat)
  {
    i + n <= |s| && forall k | i <= k < i + n :: IsUpper(s[k])
  }

  predicate LettersAt(s: string, i: nat, n: nat)
  {
    i + n <= |s| && forall k | i <= k < i + n :: IsLetter(s[k])
  }

  predicate UpperDigitsAt(s: string, i: nat, n: nat)
  {
    i + n <= |s| && forall k | i <= k < i + n :: IsUpper(s[k]) || IsDigit(s[k])
  }

  /** `s[k]` exists and is one of `chars`. */
  predicate CharIn(s: string, k: nat, chars: string)
  {
    k < |s| && s[k] in chars
  }

  predicate WordAt(s: string, k: int)
  {
    0 <= k < |s| && IsWordChar(s[k])
  }

  /** `\b` at position `k`: exactly one of the characters around it is a word character. */
  predicate Boundary(s: string, k: nat)
  {
    WordAt(s, k - 1) != WordAt(s, k)
  }

  // ---------------------------------------------------------------- matchers

  /** `[A-Z]{4}0[0-9A-Z]{6}` */
  function IfscAt(s: string, i: nat): (r: Option<Match>)
    ensures r.Some? ==> ValidMatch(s, i, r.value)
  {
    if UppersAt(s, i, 4) && CharIn(s, i + 4, "0") && UpperDigitsAt(s, i + 5, 6)
    then Some(Match(i, i + 11, []))
    else None
  }

  /** The end of the run of digits that starts at `i`. */
  function DigitRunEnd(s: string, i: nat): (e: nat)
    requires i <= |s|
    ensures i <= e <= |s| && DigitsAt(s, i, e - i)
    ensures e == |s| || !IsDigit(s[e])
    decreases |s| - i
  {
    if i < |s| && IsDigit(s[i]) then DigitRunEnd(s, i + 1) else i
  }

  /** `\.\d{2}` after `\d+` has taken `s[i..j]`, giving digits back one at a time. */
  function AmountBacktrack(s: string, i: nat, j: nat): (r: Option<Match>)
    requires i < j <= |s|
    ensures r.Some? ==> ValidMatch(s, i, r.value)
    decreases j
  {
    if CharIn(s, j, ".") && DigitsAt(s, j + 1, 2) then Some(Match(i, j + 3, [s[i..j + 3]]))
    else if j - 1 > i then AmountBacktrack(s, i, j - 1)
    else None
  }

  /** `(\d+\.\d{2})` */
  function AmountAt(s: string, i: nat): (r: Option<Match>)
    ensures r.Some? ==> ValidMatch(s, i, r.value)
  {
    if |s| < i then None
    else
      var e := DigitRunEnd(s, i);
      if e == i then None else AmountBacktrack(s, i, e)
  }

  /** `\d{2}[-.]\d{2}[-.]\d{4}`, the shape shared by three of the patterns. */
  predicate NumDateShapeAt(s: string, i: nat)
  {
    DigitsAt(s, i, 2) && CharIn(s, i + 2, "-.") && DigitsAt(s, i + 3, 2)
    && CharIn(s, i + 5, "-.") && DigitsAt(s, i + 6, 4)
  }

  /** `\b\d{2}[-.]\d{2}[-.]\d{4}\b` */
  function NumDateBoundedAt(s: string, i: nat): (r: Option<Match>)
    ensures r.Some? ==> ValidMatch(s, i, r.value)
  {
    if Boundary(s, i) && NumDateShapeAt(s, i) && Boundary(s, i + 10)
    then Some(Match(i, i + 10, []))
    else None
  }

  /** `S[A-Za-z]{3}S\d{4}\b` at `j`, each `S` one character of `seps`. */
  predicate LetterMonthTailAt(s: string, j: nat, seps: string)
  {
    CharIn(s, j, seps) && LettersAt(s, j + 1, 3) && CharIn(s, j + 4, seps)
    && DigitsAt(s, j + 5, 4) && Boundary(s, j + 9)
  }

  /** `\b\d{1,2}S[A-Za-z]{3}S\d{4}\b`, trying two day digits before one. */
  function LetterMonthBoundedAt(s: string, i: nat, seps: string): (r: Option<Match>)
    ensures r.Some? ==> ValidMatch(s, i, r.value)
  {
    if !Boundary(s, i) then None
    else if DigitsAt(s, i, 2) && LetterMonthTailAt(s, i + 2, seps) then Some(Match(i, i + 11, []))
    else if DigitsAt(s, i, 1) && LetterMonthTailAt(s, i + 1, seps) then Some(Match(i, i + 10, []))
    else None
  }

  /** `[-/.][A-Z]{3}[-/.]\d{4}` at `j`. */
  predicate UpperMonthTailAt(s: string, j: nat)
  {
    CharIn(s, j, "-/.") && UppersAt(s, j + 1, 3) && CharIn(s, j + 4, "-/.") && DigitsAt(s, j + 5, 4)
  }

  /** `(\d{1,2})[-/.]([A-Z]{3})[-/.](\d{4})`, trying two day digits before one. */
  function MonDateGroupsAt(s: string, i: nat): (r: Option<Match>)
    ensures r.Some? ==> ValidMatch(s, i, r.value) && |r.value.groups| == 3
  {
    if DigitsAt(s, i, 2) && UpperMonthTailAt(s, i + 2) then
      Some(Match(i, i + 11, [s[i..i + 2], s[i + 3..i + 6], s[i + 7..i + 11]]))
    else if DigitsAt(s, i, 1) && UpperMonthTailAt(s, i + 1) then
      Some(Match(i, i + 10, [s[i..i + 1], s[i + 2..i + 5], s[i + 6..i + 10]]))
    else None
  }

  /** `(\d{2})[.-](\d{2})[.-](\d{4})` */
  function NumDateGroupsAt(s: string, i: nat): (r: Option<Match>)
    ensures r.Some? ==> ValidMatch(s, i, r.value) && |r.value.groups| == 3
  {
    if NumDateShapeAt(s, i)
    then Some(Match(i, i + 10, [s[i..i + 2], s[i + 3..i + 5], s[i + 6..i + 10]]))
    else None
  }

  /** One character of `[-/\s]`. */
  predicate IsLooseSep(c: char) { c == '-' || c == '/' || IsSpace(c) }

  /** `(\d{4})` at `y`, closing a loose letter-month date with day `s[i..j]`
      and month `s[k..k + 3]`. */
  function LooseYearAt(s: string, i: nat, j: nat, k: nat, y: nat): (r: Option<Match>)
    requires i < j <= k && k + 3 <= y
    ensures r.Some? ==> ValidMatch(s, i, r.value) && |r.value.groups| == 3
  {
    if DigitsAt(s, y, 4) then Some(Match(i, y + 4, [s[i..j], s[k..k + 3], s[y..y + 4]])) else None
  }

  /** `([A-Z]{3})[-/\s]?(\d{4})` at `k`; the separator is tried before its absence. */
  function LooseMonthAt(s: string, i: nat, j: nat, k: nat): (r: Option<Match>)
    requires i < j <= k
    ensures r.Some? ==> ValidMatch(s, i, r.value) && |r.value.groups| == 3
  {
    if !UppersAt(s, k, 3) then None
    else
      var withSep := if k + 3 < |s| && IsLooseSep(s[k + 3]) then LooseYearAt(s, i, j, k, k + 4) else None;
      if withSep.Some? then withSep else LooseYearAt(s, i, j, k, k + 3)
  }

  /** `[-/\s]?([A-Z]{3})[-/\s]?(\d{4})` once `(\d{1,2})` has taken `s[i..j]`. */
  function LooseAfterDayAt(s: string, i: nat, j: nat): (r: Option<Match>)
    requires i < j
    ensures r.Some? ==> ValidMatch(s, i, r.value) && |r.value.groups| == 3
  {
    var withSep := if j < |s| && IsLooseSep(s[j]) then LooseMonthAt(s, i, j, j + 1) else None;
    if withSep.Some? then withSep else LooseMonthAt(s, i, j, j)
  }

  /** `(\d{1,2})[-/\s]?([A-Z]{3})[-/\s]?(\d{4})`, trying two day digits before one. */
  function MonDateLooseAt(s: string, i: nat): (r: Option<Match>)
    ensures r.Some? ==> ValidMatch(s, i, r.value) && |r.value.groups| == 3
  {
    var two := if DigitsAt(s, i, 2) then LooseAfterDayAt(s, i, i + 2) else None;
    if two.Some? then two
    else if DigitsAt(s, i, 1) then LooseAfterDayAt(s, i, i + 1)
    else None
  }

  /** The first way pattern `p` matches starting exactly at position `i`. */
  function MatchAt(p: Pattern, s: string, i: nat): (r: Option<Match>)
    ensures r.Some? ==> ValidMatch(s, i, r.value)
  {
    match p
    case IfscCode => IfscAt(s, i)
    case AmountToken => AmountAt(s, i)
    case NumDateBounded => NumDateBoundedAt(s, i)
    case MonDateDash => LetterMonthBoundedAt(s, i, "-")
    case MonDateSlash => LetterMonthBoundedAt(s, i, "/-")
    case MonDateGroups => MonDateGroupsAt(s, i)
    case NumDateGroups => NumDateGroupsAt(s, i)
    case MonDateLoose => MonDateLooseAt(s, i)
  }

  /** Pattern `p` as the matcher the scans of module Scan run. */
  function MatcherOf(p: Pattern): (f: Matcher)
    ensures forall s: string, i: nat :: f(s, i) == MatchAt(p, s, i)
  {
    (s: string, i: nat) => MatchAt(p, s, i)
  }
}
