/** Date extraction and normalisation. Two strategies are in the scripts:
    strategy A (`extract_date` plus `normalize_date` in extract_all_cheque.py
    and extract_cheque_data.py) returns the raw matched text and normalises
    it afterwards; strategy B (`extract_date` in main.py) extracts and
    reformats in one step. */
module Dates {
  import opened Text
  import opened Scan
  import opened Regex

  // ---------------------------------------------------------------- output forms

  /** The 12-entry `month_map`. */
  const MonthTable: map<string, string> := map[
    "JAN" := "01", "FEB" := "02", "MAR" := "03", "APR" := "04",
    "MAY" := "05", "JUN" := "06", "JUL" := "07", "AUG" := "08",
    "SEP" := "09", "OCT" := "10", "NOV" := "11", "DEC" := "12"]

  /** `month_map.get(abbr[:3], '00')`: always two digits, "00" for an unknown abbreviation. */
  function MonthNumber(abbr: string): (r: string)
    ensures |r| == 2 && AllDigits(r)
    ensures r == "00" <==> Prefix(abbr, 3) !in MonthTable
  {
    var key := Prefix(abbr, 3);
    if key in MonthTable then MonthTable[key] else "00"
  }

  /** The month abbreviations in calendar order. */
  const MonthNames: seq<string> := ["JAN", "FEB", "MAR", "APR", "MAY", "JUN", "JUL", "AUG", "SEP", "OCT", "NOV", "DEC"]

  /** The table's keys in calendar order, each with its entry. */
  lemma MonthTableInOrder(q: nat)
    requires q < 12
    ensures MonthNames[q] in MonthTable
    ensures MonthTable[MonthNames[q]] == if q < 9 then ['0', DigitChar(q + 1)] else ['1', DigitChar(q - 9)]
  {
  }

  /** The table numbers the months in calendar order, `JAN` as `01` up to `DEC` as `12`. */
  lemma MonthNumberInOrder(q: nat)
    requires q < 12
    ensures MonthNumber(MonthNames[q]) == Format02(q + 1)
  {
    MonthTableInOrder(q);
    assert Prefix(MonthNames[q], 3) == MonthNames[q];
    if q >= 9 {
      DivMod10(1, q - 9);
      assert NatToString(q + 1) == NatToString(1) + [DigitChar(q - 9)];
    }
  }

  /** `f"{int(day):02d}-{month_map.get(abbr[:3], '00')}-{year}"`. */
  function LetterMonthDate(day: string, abbr: string, year: string): string
  {
    Format02(DigitsValue(day)) + "-" + MonthNumber(abbr) + "-" + year
  }

  /** `f"{day}-{month}-{year}"`. */
  function NumericDate(day: string, month: string, year: string): string
  {
    day + "-" + month + "-" + year
  }

  /** The canonical `DD-MM-YYYY` shape: ten characters, digits around two dashes. */
  predicate IsCanonicalDate(r: string)
  {
    |r| == 10 && r[2] == '-' && r[5] == '-'
    && forall k | 0 <= k < 10 && k != 2 && k != 5 :: IsDigit(r[k])
  }

  /** A one-digit day is padded with a zero; a two-digit day is kept. */
  function PadDay(day: string): string
  {
    if |day| == 1 then "0" + day else day
  }

  /** A letter-month date is rendered with its day padded to two digits. */
  lemma LetterMonthDateCanonical(day: string, abbr: string, year: string)
    requires 1 <= |day| <= 2 && AllDigits(day) && |year| == 4 && AllDigits(year)
    ensures LetterMonthDate(day, abbr, year) == PadDay(day) + "-" + MonthNumber(abbr) + "-" + year
    ensures IsCanonicalDate(LetterMonthDate(day, abbr, year))
  {
    Format02OfDigits(day);
    var r := LetterMonthDate(day, abbr, year);
    var m := MonthNumber(abbr);
    assert r[0..2] == PadDay(day) && r[3..5] == m && r[6..10] == year;
    assert forall k | 0 <= k < 2 :: r[k] == PadDay(day)[k];
    assert forall k | 3 <= k < 5 :: r[k] == m[k - 3];
    assert forall k | 6 <= k < 10 :: r[k] == year[k - 6];
  }

  lemma NumericDateCanonical(day: string, month: string, year: string)
    requires |day| == 2 && AllDigits(day) && |month| == 2 && AllDigits(month)
    requires |year| == 4 && AllDigits(year)
    ensures IsCanonicalDate(NumericDate(day, month, year))
  {
    var r := NumericDate(day, month, year);
    assert forall k | 0 <= k < 2 :: r[k] == day[k];
    assert forall k | 3 <= k < 5 :: r[k] == month[k - 3];
    assert forall k | 6 <= k < 10 :: r[k] == year[k - 6];
  }

  // ---------------------------------------------------------------- normalize_date

  /** `date` starts with the numeric form `\d{2}[.-]\d{2}[.-]\d{4}`. */
  predicate NumericDatePrefix(date: string)
  {
    NumDateShapeAt(date, 0)
  }

  /** `u` starts with a loose letter-month date: a day of `d` digits, `s1`
      separators (`-`, `/` or white space, at most one), three capitals,
      `s2` separators, four digits. */
  predicate LooseDatePrefix(u: string, d: nat, s1: nat, s2: nat)
  {
    (d == 1 || d == 2) && s1 <= 1 && s2 <= 1
    && DigitsAt(u, 0, d)
    && (s1 == 1 ==> d < |u| && IsLooseSep(u[d]))
    && UppersAt(u, d + s1, 3)
    && (s2 == 1 ==> d + s1 + 3 < |u| && IsLooseSep(u[d + s1 + 3]))
    && DigitsAt(u, d + s1 + 3 + s2, 4)
  }

  predicate HasLooseDatePrefix(u: string)
  {
    exists d: nat, s1: nat, s2: nat | d <= 2 && s1 <= 1 && s2 <= 1 :: LooseDatePrefix(u, d, s1, s2)
  }

  /** A loose letter-month prefix is found by `re.match` with exactly that decomposition. */
  lemma LooseMatchOfPrefix(u: string, d: nat, s1: nat, s2: nat)
    requires LooseDatePrefix(u, d, s1, s2)
    ensures var k, y := d + s1, d + s1 + 3 + s2;
      MatchAt(MonDateLoose, u, 0) == Some(Match(0, y + 4, [u[0..d], u[k..k + 3], u[y..y + 4]]))
  {
    var k, y := d + s1, d + s1 + 3 + s2;
    assert IsUpper(u[k]) && IsDigit(u[y]);
    if d == 1 {
      assert !IsDigit(u[1]);
    }
    if s1 == 0 {
      assert !IsLooseSep(u[d]);
    }
    if s2 == 0 {
      assert !IsLooseSep(u[k + 3]);
    }
  }

  /** Whatever `re.match` finds for the loose pattern is such a prefix. */
  lemma LooseMatchHasPrefix(u: string)
    requires MatchAt(MonDateLoose, u, 0).Some?
    ensures HasLooseDatePrefix(u)
  {
    var d: nat := if DigitsAt(u, 0, 2) && LooseAfterDayAt(u, 0, 2).Some? then 2 else 1;
    assert LooseAfterDayAt(u, 0, d).Some?;
    var s1: nat := if d < |u| && IsLooseSep(u[d]) && LooseMonthAt(u, 0, d, d + 1).Some? then 1 else 0;
    var k := d + s1;
    assert LooseMonthAt(u, 0, d, k).Some?;
    var s2: nat := if k + 3 < |u| && IsLooseSep(u[k + 3]) && LooseYearAt(u, 0, d, k, k + 4).Some? then 1 else 0;
    assert LooseYearAt(u, 0, d, k, k + 3 + s2).Some?;
    assert LooseDatePrefix(u, d, s1, s2);
  }

  /** What `re.match` captures with the loose pattern: a day of one or two
      digits, three capitals, four digits. */
  lemma LooseMatchGroups(u: string)
    requires MatchAt(MonDateLoose, u, 0).Some?
    ensures var g := MatchAt(MonDateLoose, u, 0).value.groups;
      |g| == 3 && 1 <= |g[0]| <= 2 && AllDigits(g[0]) && |g[1]| == 3 && |g[2]| == 4 && AllDigits(g[2])
  {
    LooseMatchHasPrefix(u);
    var d: nat, s1: nat, s2: nat :| d <= 2 && s1 <= 1 && s2 <= 1 && LooseDatePrefix(u, d, s1, s2);
    LooseMatchOfPrefix(u, d, s1, s2);
  }

  /** A numeric prefix is never also a loose letter-month prefix. */
  lemma NumericPrefixNotLoose(date: string)
    requires NumericDatePrefix(date)
    ensures !HasLooseDatePrefix(Upper(date))
  {
    var u := Upper(date);
    assert IsDigit(u[1]) && IsDigit(u[3]) && (u[2] == '-' || u[2] == '.');
  }

  /** `normalize_date`: a loose letter-month prefix of the upper-cased input
      becomes `DD-MM-YYYY`; otherwise a numeric prefix of the input is echoed
      with dashes; anything else comes back unchanged. Trailing text after
      either prefix is dropped. */
  function NormalizeDate(date: string): (r: string)
    ensures r == date || IsCanonicalDate(r)
  {
    var u := Upper(date);
    var letter := MatchAt(MonDateLoose, u, 0);
    if letter.Some? then
      LooseMatchGroups(u);
      var g := letter.value.groups;
      LetterMonthDateCanonical(g[0], g[1], g[2]);
      LetterMonthDate(g[0], g[1], g[2])
    else
      var numeric := MatchAt(NumDateGroups, date, 0);
      if numeric.Some? then
        NumDateGroupsShape(date, 0);
        var g := numeric.value.groups;
        NumericDateCanonical(g[0], g[1], g[2]);
        NumericDate(g[0], g[1], g[2])
      else date
  }

  /** The letter-month branch: padded day, month number ("00" if unknown), year. */
  lemma NormalizeLetterMonth(date: string, d: nat, s1: nat, s2: nat)
    requires LooseDatePrefix(Upper(date), d, s1, s2)
    ensures var u, k, y := Upper(date), d + s1, d + s1 + 3 + s2;
      NormalizeDate(date) == PadDay(u[..d]) + "-" + MonthNumber(u[k..k + 3]) + "-" + u[y..y + 4]
  {
    var u, k, y := Upper(date), d + s1, d + s1 + 3 + s2;
    LooseMatchOfPrefix(u, d, s1, s2);
    NormalizeLetterBranch(date);
    assert u[0..d] == u[..d];
  }

  /** When the loose pattern matches the upper-cased input, its groups are
      rendered as padded day, month number and year. */
  lemma NormalizeLetterBranch(date: string)
    requires MatchAt(MonDateLoose, Upper(date), 0).Some?
    ensures var g := MatchAt(MonDateLoose, Upper(date), 0).value.groups;
      |g| == 3 && NormalizeDate(date) == PadDay(g[0]) + "-" + MonthNumber(g[1]) + "-" + g[2]
  {
    var u := Upper(date);
    LooseMatchGroups(u);
    var g := MatchAt(MonDateLoose, u, 0).value.groups;
    LetterMonthDateCanonical(g[0], g[1], g[2]);
  }

  /** The numeric branch: the three groups joined by dashes. */
  lemma NormalizeNumeric(date: string)
    requires NumericDatePrefix(date)
    ensures NormalizeDate(date) == date[..2] + "-" + date[3..5] + "-" + date[6..10]
  {
    NumericPrefixNotLoose(date);
    if MatchAt(MonDateLoose, Upper(date), 0).Some? {
      LooseMatchHasPrefix(Upper(date));
    }
    assert date[0..2] == date[..2];
  }

  /** Anything with neither prefix is returned as it is. */
  lemma NormalizeUnchanged(date: string)
    requires !HasLooseDatePrefix(Upper(date)) && !NumericDatePrefix(date)
    ensures NormalizeDate(date) == date
  {
    if MatchAt(MonDateLoose, Upper(date), 0).Some? {
      LooseMatchHasPrefix(Upper(date));
    }
  }

  /** A canonical date is a fixed point. */
  lemma NormalizeCanonical(date: string)
    requires IsCanonicalDate(date)
    ensures NormalizeDate(date) == date
  {
    NormalizeNumeric(date);
    assert date == date[..2] + "-" + date[3..5] + "-" + date[6..10];
  }

  /** Normalising twice is normalising once. */
  lemma NormalizeIdempotent(date: string)
    ensures NormalizeDate(NormalizeDate(date)) == NormalizeDate(date)
  {
    var r := NormalizeDate(date);
    if r != date {
      NormalizeCanonical(r);
    }
  }

  // ---------------------------------------------------------------- strategy A: extract_date

  /** The patterns of strategy A's `extract_date`, in the order they are tried. */
  const DateMatchersA: seq<Matcher> := [MatcherOf(NumDateBounded), MatcherOf(MonDateDash), MatcherOf(MonDateSlash)]

  /** Strategy A's `extract_date`: after the O-to-0 substitution, the text of
      the leftmost match of the first pattern that matches anywhere, or the
      empty string. */
  function ExtractDateA(text: string): (r: string)
    ensures 'O' !in r
  {
    var t := ZeroForO(text);
    var found := FirstMatchFrom(DateMatchersA, t, 0);
    if found.Some? then Matched(t, found.value.1) else ""
  }

  /** The numeric text the first pattern accepts: `DD?MM?YYYY` with `-` or `.`. */
  predicate IsNumDateText(w: string)
  {
    |w| == 10 && NumDateShapeAt(w, 0)
  }

  /** A numeric date text stands at `i` of `t`. */
  predicate NumDateAt(t: string, i: nat)
  {
    i + 10 <= |t| && IsNumDateText(t[i..i + 10])
  }

  /** ... and it is cut off by word boundaries on both sides. */
  predicate BoundedNumDateAt(t: string, i: nat)
  {
    NumDateAt(t, i) && Boundary(t, i) && Boundary(t, i + 10)
  }

  /** A letter-month text with a day of `d` digits, each separator one of `seps`. */
  predicate LetterDateTextSeps(w: string, d: nat, seps: string)
  {
    |w| == d + 9 && DigitsAt(w, 0, d) && CharIn(w, d, seps) && LettersAt(w, d + 1, 3)
    && CharIn(w, d + 4, seps) && DigitsAt(w, d + 5, 4)
  }

  /** The letter-month text the other two patterns accept, with a day of `d` digits. */
  predicate LetterDateTextWith(w: string, d: nat)
  {
    LetterDateTextSeps(w, d, "/-")
  }

  predicate IsLetterDateText(w: string)
  {
    LetterDateTextWith(w, 1) || LetterDateTextWith(w, 2)
  }

  /** A letter-month text with a `d`-digit day stands at `i` of `t` between word boundaries. */
  predicate BoundedLetterDateAt(t: string, i: nat, d: nat, seps: string)
  {
    i + d + 9 <= |t| && Boundary(t, i) && LetterDateTextSeps(t[i..i + d + 9], d, seps) && Boundary(t, i + d + 9)
  }

  /** The numeric pattern matches at `i` exactly when a numeric date stands
      there between word boundaries, and the match is those ten characters. */
  lemma NumDateBoundedMatch(t: string, i: nat)
    ensures MatchAt(NumDateBounded, t, i).Some? <==> BoundedNumDateAt(t, i)
    ensures MatchAt(NumDateBounded, t, i).Some? ==> MatchAt(NumDateBounded, t, i).value == Match(i, i + 10, [])
  {
    if i + 10 <= |t| {
      var w := t[i..i + 10];
      assert forall k | 0 <= k < 10 :: w[k] == t[i + k];
    }
  }

  /** A separator set without digits fixes the day's length: a one-digit
      day is followed by a separator, where a two-digit day has its second digit. */
  lemma LetterDayLengthUnique(t: string, i: nat, seps: string)
    requires seps == "-" || seps == "/-"
    ensures !(BoundedLetterDateAt(t, i, 1, seps) && BoundedLetterDateAt(t, i, 2, seps))
  {
    if BoundedLetterDateAt(t, i, 1, seps) && i + 11 <= |t| {
      assert t[i..i + 10][1] == t[i + 1] == t[i..i + 11][1];
    }
  }

  /** The letter-month patterns match at `i` exactly when a letter-month
      date with a one- or two-digit day stands there between word
      boundaries, and the match is that date. */
  lemma LetterDateBoundedMatch(t: string, i: nat, seps: string)
    requires seps == "-" || seps == "/-"
    ensures LetterMonthBoundedAt(t, i, seps).Some?
      <==> BoundedLetterDateAt(t, i, 1, seps) || BoundedLetterDateAt(t, i, 2, seps)
    ensures BoundedLetterDateAt(t, i, 1, seps) ==> LetterMonthBoundedAt(t, i, seps) == Some(Match(i, i + 10, []))
    ensures BoundedLetterDateAt(t, i, 2, seps) ==> LetterMonthBoundedAt(t, i, seps) == Some(Match(i, i + 11, []))
  {
    LetterDayLengthUnique(t, i, seps);
    LetterWindowAt(t, i, 1, seps);
    LetterWindowAt(t, i, 2, seps);
  }

  /** The matcher's day-then-tail test reads the window of `d + 9` characters at `i`. */
  lemma LetterWindowAt(t: string, i: nat, d: nat, seps: string)
    ensures BoundedLetterDateAt(t, i, d, seps)
      <==> Boundary(t, i) && DigitsAt(t, i, d) && LetterMonthTailAt(t, i + d, seps)
  {
    if i + d + 9 <= |t| {
      var w := t[i..i + d + 9];
      assert forall k | 0 <= k < d + 9 :: w[k] == t[i + k];
    }
  }

  /** A dash-only letter-month date is also one with `/` or `-` separators. */
  lemma DashLetterDateIsLetterDate(t: string, i: nat, d: nat)
    requires BoundedLetterDateAt(t, i, d, "-")
    ensures BoundedLetterDateAt(t, i, d, "/-")
  {
    var w := t[i..i + d + 9];
    assert w[d] == '-' && w[d + 4] == '-';
  }

  /** The patterns are tried in order: the first one's leftmost match wins,
      the second is consulted only when the first finds nothing, the third only
      when neither does, and the result is empty only when none matches. */
  lemma ExtractDateAPriority(text: string)
    ensures var t, r := ZeroForO(text), ExtractDateA(text);
      var num, dash, slash := Search(MatcherOf(NumDateBounded), t), Search(MatcherOf(MonDateDash), t),
        Search(MatcherOf(MonDateSlash), t);
      (num.Some? ==> r == Matched(t, num.value))
      && (num.None? && dash.Some? ==> r == Matched(t, dash.value))
      && (num.None? && dash.None? && slash.Some? ==> r == Matched(t, slash.value))
      && (r == "" <==> num.None? && dash.None? && slash.None?)
  {
  }

  /** The leftmost bounded numeric date of the substituted text is what
      strategy A returns. */
  lemma ExtractDateALeftmostNumeric(text: string, i: nat)
    requires BoundedNumDateAt(ZeroForO(text), i)
    requires forall j | 0 <= j < i :: !BoundedNumDateAt(ZeroForO(text), j)
    ensures ExtractDateA(text) == ZeroForO(text)[i..i + 10]
  {
    var t := ZeroForO(text);
    NumDateBoundedMatch(t, i);
    forall j | 0 <= j < i ensures MatcherOf(NumDateBounded)(t, j).None? {
      NumDateBoundedMatch(t, j);
    }
    SearchFindsLeftmost(MatcherOf(NumDateBounded), t, i);
    ExtractDateAPriority(text);
  }

  /** With no bounded numeric date anywhere, the leftmost dash-separated
      letter-month date is what strategy A returns. */
  lemma ExtractDateALeftmostDash(text: string, i: nat, d: nat)
    requires forall j | 0 <= j <= |ZeroForO(text)| :: !BoundedNumDateAt(ZeroForO(text), j)
    requires (d == 1 || d == 2) && BoundedLetterDateAt(ZeroForO(text), i, d, "-")
    requires forall j | 0 <= j < i ::
      !BoundedLetterDateAt(ZeroForO(text), j, 1, "-") && !BoundedLetterDateAt(ZeroForO(text), j, 2, "-")
    ensures ExtractDateA(text) == ZeroForO(text)[i..i + d + 9]
  {
    var t := ZeroForO(text);
    forall j | 0 <= j <= |t| ensures MatcherOf(NumDateBounded)(t, j).None? {
      NumDateBoundedMatch(t, j);
    }
    SearchFindsNothing(MatcherOf(NumDateBounded), t);
    LetterDateBoundedMatch(t, i, "-");
    forall j | 0 <= j < i ensures MatcherOf(MonDateDash)(t, j).None? {
      LetterDateBoundedMatch(t, j, "-");
    }
    SearchFindsLeftmost(MatcherOf(MonDateDash), t, i);
    ExtractDateAPriority(text);
  }

  /** With neither a bounded numeric date nor a dash-separated letter-month
      date anywhere, the leftmost letter-month date with `/` or `-`
      separators is what strategy A returns. */
  lemma ExtractDateALeftmostSlash(text: string, i: nat, d: nat)
    requires forall j | 0 <= j <= |ZeroForO(text)| ::
      !BoundedNumDateAt(ZeroForO(text), j)
      && !BoundedLetterDateAt(ZeroForO(text), j, 1, "-") && !BoundedLetterDateAt(ZeroForO(text), j, 2, "-")
    requires (d == 1 || d == 2) && BoundedLetterDateAt(ZeroForO(text), i, d, "/-")
    requires forall j | 0 <= j < i ::
      !BoundedLetterDateAt(ZeroForO(text), j, 1, "/-") && !BoundedLetterDateAt(ZeroForO(text), j, 2, "/-")
    ensures ExtractDateA(text) == ZeroForO(text)[i..i + d + 9]
  {
    var t := ZeroForO(text);
    forall j | 0 <= j <= |t| ensures MatcherOf(NumDateBounded)(t, j).None? && MatcherOf(MonDateDash)(t, j).None? {
      NumDateBoundedMatch(t, j);
      LetterDateBoundedMatch(t, j, "-");
    }
    SearchFindsNothing(MatcherOf(NumDateBounded), t);
    SearchFindsNothing(MatcherOf(MonDateDash), t);
    LetterDateBoundedMatch(t, i, "/-");
    forall j | 0 <= j < i ensures MatcherOf(MonDateSlash)(t, j).None? {
      LetterDateBoundedMatch(t, j, "/-");
    }
    SearchFindsLeftmost(MatcherOf(MonDateSlash), t, i);
    ExtractDateAPriority(text);
  }

  /** No bounded numeric date and no bounded letter-month date stands anywhere in `t`. */
  predicate NoDateTextA(t: string)
  {
    forall j | 0 <= j <= |t| ::
      !BoundedNumDateAt(t, j) && !BoundedLetterDateAt(t, j, 1, "/-") && !BoundedLetterDateAt(t, j, 2, "/-")
  }

  lemma NoDateTextNoMatchA(t: string)
    requires NoDateTextA(t)
    ensures Search(MatcherOf(NumDateBounded), t).None? && Search(MatcherOf(MonDateDash), t).None?
      && Search(MatcherOf(MonDateSlash), t).None?
  {
    forall j | 0 <= j <= |t| ensures MatcherOf(NumDateBounded)(t, j).None?
      && MatcherOf(MonDateDash)(t, j).None? && MatcherOf(MonDateSlash)(t, j).None?
    {
      NumDateBoundedMatch(t, j);
      LetterDateBoundedMatch(t, j, "/-");
      LetterDateBoundedMatch(t, j, "-");
      if BoundedLetterDateAt(t, j, 1, "-") { DashLetterDateIsLetterDate(t, j, 1); }
      if BoundedLetterDateAt(t, j, 2, "-") { DashLetterDateIsLetterDate(t, j, 2); }
    }
    SearchFindsNothing(MatcherOf(NumDateBounded), t);
    SearchFindsNothing(MatcherOf(MonDateDash), t);
    SearchFindsNothing(MatcherOf(MonDateSlash), t);
  }

  lemma NoMatchNoDateTextA(t: string)
    requires Search(MatcherOf(NumDateBounded), t).None? && Search(MatcherOf(MonDateSlash), t).None?
    ensures NoDateTextA(t)
  {
    forall j | 0 <= j <= |t| ensures !BoundedNumDateAt(t, j)
      && !BoundedLetterDateAt(t, j, 1, "/-") && !BoundedLetterDateAt(t, j, 2, "/-")
    {
      assert MatcherOf(NumDateBounded)(t, j).None? && MatcherOf(MonDateSlash)(t, j).None?;
      NumDateBoundedMatch(t, j);
      LetterDateBoundedMatch(t, j, "/-");
    }
  }

  /** Strategy A finds nothing exactly when the substituted text holds no
      bounded numeric date and no bounded letter-month date. */
  lemma ExtractDateAEmptyIff(text: string)
    ensures ExtractDateA(text) == "" <==> NoDateTextA(ZeroForO(text))
  {
    var t := ZeroForO(text);
    ExtractDateAPriority(text);
    if Search(MatcherOf(NumDateBounded), t).None? && Search(MatcherOf(MonDateSlash), t).None? {
      NoMatchNoDateTextA(t);
    }
    if NoDateTextA(t) {
      NoDateTextNoMatchA(t);
    }
  }

  /** A match of one of strategy A's patterns is a numeric or letter-month
      date text between two word boundaries. */
  lemma DateMatchA(t: string, q: nat, m: Match)
    requires q < 3 && DateMatchersA[q](t, m.start) == Some(m)
    ensures var w := Matched(t, m);
      (IsNumDateText(w) || IsLetterDateText(w)) && OccursAt(t, w, m.start)
      && Boundary(t, m.start) && Boundary(t, m.start + |w|)
  {
    var i := m.start;
    if q == 0 {
      NumDateBoundedMatch(t, i);
      assert Matched(t, m) == t[i..i + 10];
    } else {
      var seps := if q == 1 then "-" else "/-";
      LetterDateBoundedMatch(t, i, seps);
      var d := if BoundedLetterDateAt(t, i, 1, seps) then 1 else 2;
      if q == 1 {
        DashLetterDateIsLetterDate(t, i, d);
      }
      assert Matched(t, m) == t[i..i + d + 9];
    }
  }

  /** A date strategy A finds is a numeric or letter-month date that stands
      in the substituted text between two word boundaries. */
  lemma ExtractDateAShape(text: string)
    ensures var t, r := ZeroForO(text), ExtractDateA(text);
      r == "" || ((IsNumDateText(r) || IsLetterDateText(r))
        && exists i: nat :: OccursAt(t, r, i) && Boundary(t, i) && Boundary(t, i + |r|))
  {
    var t := ZeroForO(text);
    var found := FirstMatchFrom(DateMatchersA, t, 0);
    if found.Some? {
      var q, m := found.value.0, found.value.1;
      DateMatchA(t, q, m);
      var r, i := ExtractDateA(text), m.start;
      assert r == Matched(t, m);
      assert OccursAt(t, r, i) && Boundary(t, i) && Boundary(t, i + |r|);
    }
  }

  /** A month written with the letter O (OCT, NOV) never appears in what
      strategy A finds, because the substitution runs before the patterns. */
  lemma ExtractDateANoOctNov(text: string)
    ensures !Contains(ExtractDateA(text), "OCT") && !Contains(ExtractDateA(text), "NOV")
  {
    var r := ExtractDateA(text);
    forall k | 0 <= k <= |r| - 3 ensures !OccursAt(r, "OCT", k) && !OccursAt(r, "NOV", k) {
      var w := r[k..k + 3];
      assert w[0] == r[k] != 'O' && w[1] == r[k + 1] != 'O';
      assert "OCT"[0] == 'O' && "NOV"[1] == 'O';
    }
  }

  /** `normalize_date` on a numeric date text gives `DD-MM-YYYY`. */
  lemma NormalizeNumDateText(w: string)
    requires IsNumDateText(w)
    ensures IsCanonicalDate(NormalizeDate(w))
    ensures NormalizeDate(w) == w[..2] + "-" + w[3..5] + "-" + w[6..10]
  {
    NormalizeNumeric(w);
    NumericDateCanonical(w[..2], w[3..5], w[6..10]);
  }

  /** `normalize_date` on a letter-month date text pads the day, numbers the
      upper-cased month and keeps the year. */
  lemma NormalizeLetterDateText(w: string, d: nat)
    requires LetterDateTextWith(w, d) && (d == 1 || d == 2)
    ensures IsCanonicalDate(NormalizeDate(w))
    ensures NormalizeDate(w) == PadDay(w[..d]) + "-" + MonthNumber(Upper(w[d + 1..d + 4])) + "-" + w[d + 5..d + 9]
  {
    var u := Upper(w);
    assert IsLooseSep(u[d]) && IsLooseSep(u[d + 4]);
    assert LooseDatePrefix(u, d, 1, 1);
    NormalizeLetterMonth(w, d, 1, 1);
    assert u[..d] == w[..d];
    assert u[d + 1..d + 4] == Upper(w[d + 1..d + 4]);
    assert u[d + 5..d + 9] == w[d + 5..d + 9];
    LetterMonthDateCanonical(u[0..d], u[d + 1..d + 4], u[d + 5..d + 9]);
  }

  /** Strategy A end to end (`normalize_date(extract_date(full_text))`): the
      date field is empty or in the canonical `DD-MM-YYYY` shape. */
  lemma DateAOutcome(text: string)
    ensures var r := NormalizeDate(ExtractDateA(text)); r == "" || IsCanonicalDate(r)
  {
    var w := ExtractDateA(text);
    ExtractDateAShape(text);
    if w == "" {
      NormalizeUnchanged(w);
    } else if IsNumDateText(w) {
      NormalizeNumDateText(w);
    } else if LetterDateTextWith(w, 1) {
      NormalizeLetterDateText(w, 1);
    } else {
      NormalizeLetterDateText(w, 2);
    }
  }

  // ---------------------------------------------------------------- strategy B: main.py

  /** The patterns of main.py's `extract_date`, in the order they are tried. */
  const DatePatternsB: seq<Pattern> := [MonDateGroups, NumDateGroups]

  /** The formatting step: a letter month goes through the month table with
      the day padded, otherwise the groups are joined with dashes. */
  function RenderDateB(g: seq<string>): string
    requires |g| == 3
  {
    if IsAlpha(g[1]) then LetterMonthDate(g[0], g[1], g[2]) else NumericDate(g[0], g[1], g[2])
  }

  /** The pattern loop from pattern `k` on, over the upper-cased text `u`. */
  function ExtractDateBFrom(u: string, k: nat): string
    decreases |DatePatternsB| - k
  {
    if k >= |DatePatternsB| then ""
    else
      var m := Search(MatcherOf(DatePatternsB[k]), u);
      if m.Some? && |m.value.groups| == 3 then RenderDateB(m.value.groups) else ExtractDateBFrom(u, k + 1)
  }

  /** main.py's `extract_date`. */
  function ExtractDateB(text: string): string
  {
    ExtractDateBFrom(Upper(text), 0)
  }

  /** What the letter-month pattern of strategy B captures. */
  lemma MonDateGroupsShape(u: string, i: nat)
    requires MatchAt(MonDateGroups, u, i).Some?
    ensures var g := MatchAt(MonDateGroups, u, i).value.groups;
      |g| == 3 && 1 <= |g[0]| <= 2 && AllDigits(g[0]) && |g[1]| == 3 && IsAlpha(g[1])
      && (forall k | 0 <= k < 3 :: IsUpper(g[1][k])) && |g[2]| == 4 && AllDigits(g[2])
  {
  }

  /** What the numeric pattern captures. */
  lemma NumDateGroupsShape(u: string, i: nat)
    requires MatchAt(NumDateGroups, u, i).Some?
    ensures var g := MatchAt(NumDateGroups, u, i).value.groups;
      |g| == 3 && |g[0]| == 2 && AllDigits(g[0]) && |g[1]| == 2 && AllDigits(g[1]) && !IsAlpha(g[1])
      && |g[2]| == 4 && AllDigits(g[2])
  {
    var g := MatchAt(NumDateGroups, u, i).value.groups;
    assert IsDigit(g[1][0]);
  }

  /** Strategy B's letter-month text: a `d`-digit day, three capitals and a
      four-digit year, with one of `-`, `/`, `.` after the day and after the month. */
  predicate UpperDateText(w: string, d: nat)
  {
    |w| == d + 9 && DigitsAt(w, 0, d) && CharIn(w, d, "-/.") && UppersAt(w, d + 1, 3)
    && CharIn(w, d + 4, "-/.") && DigitsAt(w, d + 5, 4)
  }

  predicate UpperDateAt(u: string, i: nat, d: nat)
  {
    i + d + 9 <= |u| && UpperDateText(u[i..i + d + 9], d)
  }

  /** The matcher's day-then-tail test reads the window of `d + 9` characters at `i`. */
  lemma UpperWindowAt(u: string, i: nat, d: nat)
    ensures UpperDateAt(u, i, d) <==> DigitsAt(u, i, d) && UpperMonthTailAt(u, i + d)
  {
    if i + d + 9 <= |u| {
      var w := u[i..i + d + 9];
      assert forall k | 0 <= k < d + 9 :: w[k] == u[i + k];
    }
  }

  /** Strategy B's letter-month pattern matches at `i` exactly when such a
      date with a one- or two-digit day starts there; its groups are the
      day, the month and the year. */
  lemma MonDateGroupsMatch(u: string, i: nat)
    ensures MatchAt(MonDateGroups, u, i).Some? <==> UpperDateAt(u, i, 1) || UpperDateAt(u, i, 2)
    ensures UpperDateAt(u, i, 1) ==> MatchAt(MonDateGroups, u, i) == Some(Match(i, i + 10, [u[i..i + 1], u[i + 2..i + 5], u[i + 6..i + 10]]))
    ensures UpperDateAt(u, i, 2) ==> MatchAt(MonDateGroups, u, i) == Some(Match(i, i + 11, [u[i..i + 2], u[i + 3..i + 6], u[i + 7..i + 11]]))
  {
    UpperWindowAt(u, i, 1);
    UpperWindowAt(u, i, 2);
    if UpperDateAt(u, i, 1) {
      assert u[i..i + 10][1] == u[i + 1];
      assert !IsDigit(u[i + 1]);
    }
  }

  /** Strategy B's numeric pattern matches at `i` exactly when a numeric
      date starts there; its groups are the day, the month and the year. */
  lemma NumDateGroupsMatch(u: string, i: nat)
    ensures MatchAt(NumDateGroups, u, i).Some? <==> NumDateAt(u, i)
    ensures NumDateAt(u, i) ==> MatchAt(NumDateGroups, u, i) == Some(Match(i, i + 10, [u[i..i + 2], u[i + 3..i + 5], u[i + 6..i + 10]]))
  {
    if i + 10 <= |u| {
      var w := u[i..i + 10];
      assert forall k | 0 <= k < 10 :: w[k] == u[i + k];
    }
  }

  /** Strategy B tries the letter-month pattern first; its leftmost match is
      rendered with a padded day and the month number. Only when it finds
      nothing is the numeric pattern's leftmost match joined with dashes;
      when neither matches the result is empty. */
  lemma ExtractDateBCases(text: string)
    ensures var u, r := Upper(text), ExtractDateB(text);
      var letter, numeric := Search(MatcherOf(MonDateGroups), u), Search(MatcherOf(NumDateGroups), u);
      (letter.Some? ==>
        |letter.value.groups| == 3
        && r == PadDay(letter.value.groups[0]) + "-" + MonthNumber(letter.value.groups[1]) + "-" + letter.value.groups[2])
      && (letter.None? && numeric.Some? ==>
        |numeric.value.groups| == 3
        && r == numeric.value.groups[0] + "-" + numeric.value.groups[1] + "-" + numeric.value.groups[2])
      && (letter.None? && numeric.None? ==> r == "")
  {
    var u := Upper(text);
    var letter, numeric := Search(MatcherOf(MonDateGroups), u), Search(MatcherOf(NumDateGroups), u);
    if letter.Some? {
      MonDateGroupsShape(u, letter.value.start);
      var g := letter.value.groups;
      LetterMonthDateCanonical(g[0], g[1], g[2]);
    } else if numeric.Some? {
      NumDateGroupsShape(u, numeric.value.start);
    }
  }

  /** Strategy B's date is empty or in the canonical `DD-MM-YYYY` shape. */
  lemma ExtractDateBShape(text: string)
    ensures ExtractDateB(text) == "" || IsCanonicalDate(ExtractDateB(text))
  {
    var u := Upper(text);
    var letter, numeric := Search(MatcherOf(MonDateGroups), u), Search(MatcherOf(NumDateGroups), u);
    if letter.Some? {
      MonDateGroupsShape(u, letter.value.start);
      var g := letter.value.groups;
      LetterMonthDateCanonical(g[0], g[1], g[2]);
    } else if numeric.Some? {
      NumDateGroupsShape(u, numeric.value.start);
      var g := numeric.value.groups;
      NumericDateCanonical(g[0], g[1], g[2]);
    }
  }

  /** `re.search` with strategy B's letter-month pattern finds its leftmost date. */
  lemma SearchLetterLeftmostB(u: string, i: nat, d: nat)
    requires (d == 1 || d == 2) && UpperDateAt(u, i, d)
    requires forall j | 0 <= j < i :: !UpperDateAt(u, j, 1) && !UpperDateAt(u, j, 2)
    ensures Search(MatcherOf(MonDateGroups), u) == Some(Match(i, i + d + 9, [u[i..i + d], u[i + d + 1..i + d + 4], u[i + d + 5..i + d + 9]]))
  {
    MonDateGroupsMatch(u, i);
    forall j | 0 <= j < i ensures MatcherOf(MonDateGroups)(u, j).None? {
      MonDateGroupsMatch(u, j);
    }
    SearchFindsLeftmost(MatcherOf(MonDateGroups), u, i);
  }

  /** The leftmost letter-month date of the upper-cased text is what
      strategy B renders, with the day padded and the month numbered. */
  lemma ExtractDateBLeftmostLetter(text: string, i: nat, d: nat)
    requires (d == 1 || d == 2) && UpperDateAt(Upper(text), i, d)
    requires forall j | 0 <= j < i :: !UpperDateAt(Upper(text), j, 1) && !UpperDateAt(Upper(text), j, 2)
    ensures var u := Upper(text);
      ExtractDateB(text) == PadDay(u[i..i + d]) + "-" + MonthNumber(u[i + d + 1..i + d + 4]) + "-" + u[i + d + 5..i + d + 9]
  {
    SearchLetterLeftmostB(Upper(text), i, d);
    ExtractDateBCases(text);
  }

  /** With no letter-month date anywhere, `re.search` with the numeric
      pattern finds the leftmost numeric date. */
  lemma SearchNumericLeftmostB(u: string, i: nat)
    requires forall j | 0 <= j <= |u| :: !UpperDateAt(u, j, 1) && !UpperDateAt(u, j, 2)
    requires NumDateAt(u, i)
    requires forall j | 0 <= j < i :: !NumDateAt(u, j)
    ensures Search(MatcherOf(MonDateGroups), u).None?
    ensures Search(MatcherOf(NumDateGroups), u) == Some(Match(i, i + 10, [u[i..i + 2], u[i + 3..i + 5], u[i + 6..i + 10]]))
  {
    forall j | 0 <= j <= |u| ensures MatcherOf(MonDateGroups)(u, j).None? {
      MonDateGroupsMatch(u, j);
    }
    SearchFindsNothing(MatcherOf(MonDateGroups), u);
    NumDateGroupsMatch(u, i);
    forall j | 0 <= j < i ensures MatcherOf(NumDateGroups)(u, j).None? {
      NumDateGroupsMatch(u, j);
    }
    SearchFindsLeftmost(MatcherOf(NumDateGroups), u, i);
  }

  /** With no letter-month date anywhere, the leftmost numeric date of the
      upper-cased text is what strategy B returns, its separators turned into dashes. */
  lemma ExtractDateBLeftmostNumeric(text: string, i: nat)
    requires forall j | 0 <= j <= |Upper(text)| :: !UpperDateAt(Upper(text), j, 1) && !UpperDateAt(Upper(text), j, 2)
    requires NumDateAt(Upper(text), i)
    requires forall j | 0 <= j < i :: !NumDateAt(Upper(text), j)
    ensures var u := Upper(text); ExtractDateB(text) == u[i..i + 2] + "-" + u[i + 3..i + 5] + "-" + u[i + 6..i + 10]
  {
    SearchNumericLeftmostB(Upper(text), i);
    ExtractDateBCases(text);
  }

  /** No letter-month date and no numeric date of strategy B starts anywhere in `u`. */
  predicate NoDateTextB(u: string)
  {
    forall j | 0 <= j <= |u| :: !UpperDateAt(u, j, 1) && !UpperDateAt(u, j, 2) && !NumDateAt(u, j)
  }

  lemma NoDateTextNoMatchB(u: string)
    requires NoDateTextB(u)
    ensures Search(MatcherOf(MonDateGroups), u).None? && Search(MatcherOf(NumDateGroups), u).None?
  {
    forall j | 0 <= j <= |u| ensures MatcherOf(MonDateGroups)(u, j).None? && MatcherOf(NumDateGroups)(u, j).None? {
      MonDateGroupsMatch(u, j);
      NumDateGroupsMatch(u, j);
    }
    SearchFindsNothing(MatcherOf(MonDateGroups), u);
    SearchFindsNothing(MatcherOf(NumDateGroups), u);
  }

  lemma NoMatchNoDateTextB(u: string)
    requires Search(MatcherOf(MonDateGroups), u).None? && Search(MatcherOf(NumDateGroups), u).None?
    ensures NoDateTextB(u)
  {
    forall j | 0 <= j <= |u| ensures !UpperDateAt(u, j, 1) && !UpperDateAt(u, j, 2) && !NumDateAt(u, j) {
      assert MatcherOf(MonDateGroups)(u, j).None? && MatcherOf(NumDateGroups)(u, j).None?;
      MonDateGroupsMatch(u, j);
      NumDateGroupsMatch(u, j);
    }
  }

  /** Strategy B finds nothing exactly when the upper-cased text holds
      neither kind of date. */
  lemma ExtractDateBEmptyIff(text: string)
    ensures ExtractDateB(text) == "" <==> NoDateTextB(Upper(text))
  {
    var u := Upper(text);
    if Search(MatcherOf(MonDateGroups), u).None? && Search(MatcherOf(NumDateGroups), u).None? {
      NoMatchNoDateTextB(u);
      ExtractDateBCases(text);
    } else {
      ExtractDateBCases(text);
      if NoDateTextB(u) {
        NoDateTextNoMatchB(u);
      }
    }
  }

  // ---------------------------------------------------------------- examples

  /** The letter-month branch on an input already in capitals, with one
      separator on each side of the month. */
  lemma NormalizeCapitalLetterMonth(a: string, d: nat)
    requires LooseDatePrefix(a, d, 1, 1) && forall k | 0 <= k < |a| :: !IsLower(a[k])
    ensures NormalizeDate(a) == PadDay(a[..d]) + "-" + MonthNumber(a[d + 1..d + 4]) + "-" + a[d + 5..d + 9]
  {
    UpperWithoutLower(a);
    NormalizeLetterMonth(a, d, 1, 1);
  }

  lemma ShortDayPieces(a: string)
    requires a == "5-JAN-2023"
    ensures LooseDatePrefix(a, 1, 1, 1) && forall k | 0 <= k < |a| :: !IsLower(a[k])
    ensures PadDay(a[..1]) + "-" + MonthNumber(a[2..5]) + "-" + a[6..10] == "05-01-2023"
  {
    assert a[..1] == "5" && a[2..5] == "JAN" && a[6..10] == "2023";
    assert MonthNumber("JAN") == "01";
  }

  /** `normalize_date` pads a one-digit day. */
  lemma NormalizeExampleShortDay()
    ensures NormalizeDate("5-JAN-2023") == "05-01-2023"
  {
    ShortDayPieces("5-JAN-2023");
    NormalizeCapitalLetterMonth("5-JAN-2023", 1);
  }

  lemma LowerCaseUpper(b: string)
    requires b == "12 mar 2024"
    ensures Upper(b) == "12 MAR 2024"
  {
    var u := Upper(b);
    assert u[3] == 'M' && u[4] == 'A' && u[5] == 'R';
  }

  lemma LowerCasePieces(u: string)
    requires u == "12 MAR 2024"
    ensures LooseDatePrefix(u, 2, 1, 1)
    ensures PadDay(u[..2]) + "-" + MonthNumber(u[3..6]) + "-" + u[7..11] == "12-03-2024"
  {
    assert u[..2] == "12" && u[3..6] == "MAR" && u[7..11] == "2024";
    assert MonthNumber("MAR") == "03";
  }

  /** `normalize_date` upper-cases first and accepts a space as separator. */
  lemma NormalizeExampleLowerCase()
    ensures NormalizeDate("12 mar 2024") == "12-03-2024"
  {
    LowerCaseUpper("12 mar 2024");
    LowerCasePieces("12 MAR 2024");
    NormalizeLetterMonth("12 mar 2024", 2, 1, 1);
  }

  lemma NumericPieces(c: string)
    requires c == "05.01.2023"
    ensures NumericDatePrefix(c)
    ensures c[..2] + "-" + c[3..5] + "-" + c[6..10] == "05-01-2023"
  {
    assert c[..2] == "05" && c[3..5] == "01" && c[6..10] == "2023";
  }

  /** `normalize_date` rewrites the dotted numeric form with dashes. */
  lemma NormalizeExampleNumeric()
    ensures NormalizeDate("05.01.2023") == "05-01-2023"
  {
    NumericPieces("05.01.2023");
    NormalizeNumeric("05.01.2023");
  }

  lemma UnknownMonthPieces(a: string)
    requires a == "5-XYZ-2023"
    ensures LooseDatePrefix(a, 1, 1, 1) && forall k | 0 <= k < |a| :: !IsLower(a[k])
    ensures PadDay(a[..1]) + "-" + MonthNumber(a[2..5]) + "-" + a[6..10] == "05-00-2023"
  {
    assert a[..1] == "5" && a[2..5] == "XYZ" && a[6..10] == "2023";
    assert MonthNumber("XYZ") == "00";
  }

  /** An abbreviation missing from the month table gives month "00". */
  lemma NormalizeExampleUnknownMonth()
    ensures NormalizeDate("5-XYZ-2023") == "05-00-2023"
  {
    UnknownMonthPieces("5-XYZ-2023");
    NormalizeCapitalLetterMonth("5-XYZ-2023", 1);
  }

  /** Text with neither date form, the empty string included, comes back unchanged. */
  lemma NormalizeExampleNoDate()
    ensures NormalizeDate("garbage") == "garbage"
    ensures NormalizeDate("") == ""
  {
    assert !IsDigit(Upper("garbage")[0]);
    NormalizeUnchanged("garbage");
    NormalizeUnchanged("");
  }

  /** The numeric pattern's leftmost match in the dotted date after the label. */
  lemma DottedDateMatch(t: string)
    requires t == "DATE 05.01.2023"
    ensures ZeroForO(t) == t
    ensures Search(MatcherOf(NumDateBounded), t) == Some(Match(5, 15, []))
    ensures t[5..15] == "05.01.2023"
  {
    ZeroForOAbsent(t);
    assert !IsWordChar(t[4]) && IsWordChar(t[5]);
    assert MatchAt(NumDateBounded, t, 5) == Some(Match(5, 15, []));
    forall j | 0 <= j < 5 ensures MatchAt(NumDateBounded, t, j).None? {
      assert !IsDigit(t[j]);
    }
    SearchFindsLeftmost(MatcherOf(NumDateBounded), t, 5);
  }

  /** Strategy A finds the dotted date after the label, and normalisation
      rewrites it with dashes. */
  lemma ExtractDateAExample()
    ensures ExtractDateA("DATE 05.01.2023") == "05.01.2023"
    ensures NormalizeDate(ExtractDateA("DATE 05.01.2023")) == "05-01-2023"
  {
    DottedDateMatch("DATE 05.01.2023");
    ExtractDateAPriority("DATE 05.01.2023");
    NormalizeExampleNumeric();
  }

  /** None of strategy A's patterns matches anywhere in the substituted October date. */
  lemma ZeroedOctoberNoMatch(t: string)
    requires t == "12-0CT-2023"
    ensures Search(MatcherOf(NumDateBounded), t).None?
    ensures Search(MatcherOf(MonDateDash), t).None? && Search(MatcherOf(MonDateSlash), t).None?
  {
    assert IsDigit(t[0]) && IsDigit(t[1]) && !IsDigit(t[2]) && !IsLetter(t[3]) && !IsDigit(t[4]);
    assert !Boundary(t, 1);
    forall j | 0 <= j <= |t| ensures MatchAt(NumDateBounded, t, j).None? {
      assert !NumDateShapeAt(t, j);
    }
    forall j | 0 <= j <= |t| ensures MatchAt(MonDateDash, t, j).None? && MatchAt(MonDateSlash, t, j).None? {
    }
    SearchFindsNothing(MatcherOf(NumDateBounded), t);
    SearchFindsNothing(MatcherOf(MonDateDash), t);
    SearchFindsNothing(MatcherOf(MonDateSlash), t);
  }

  lemma ZeroedOctober(text: string)
    requires text == "12-OCT-2023"
    ensures ZeroForO(text) == "12-0CT-2023"
  {
    var t := ZeroForO(text);
    assert t[3] == '0';
  }

  /** October under strategy A: the substitution turns the O of OCT into a
      zero, so none of its patterns matches. */
  lemma OctoberStrategyA()
    ensures ExtractDateA("12-OCT-2023") == ""
  {
    ZeroedOctober("12-OCT-2023");
    ZeroedOctoberNoMatch("12-0CT-2023");
    ExtractDateAPriority("12-OCT-2023");
  }

  /** The letter-month pattern of strategy B matches the October date at its start. */
  lemma OctoberGroups(text: string)
    requires text == "12-OCT-2023"
    ensures Upper(text) == text
    ensures Search(MatcherOf(MonDateGroups), text) == Some(Match(0, 11, ["12", "OCT", "2023"]))
    ensures PadDay("12") + "-" + MonthNumber("OCT") + "-" + "2023" == "12-10-2023"
  {
    UpperWithoutLower(text);
    assert text[0..2] == "12" && text[3..6] == "OCT" && text[7..11] == "2023";
    assert MatchAt(MonDateGroups, text, 0) == Some(Match(0, 11, ["12", "OCT", "2023"]));
    SearchFindsLeftmost(MatcherOf(MonDateGroups), text, 0);
    assert MonthNumber("OCT") == "10";
  }

  /** October under strategy B, which does not substitute: month 10. */
  lemma OctoberStrategyB()
    ensures ExtractDateB("12-OCT-2023") == "12-10-2023"
  {
    OctoberGroups("12-OCT-2023");
    ExtractDateBCases("12-OCT-2023");
  }
}
