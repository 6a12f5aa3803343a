/** The IFSC and amount parsers (`extract_ifsc` and `extract_amount`, which
    read the same in all three pipeline scripts). */
module Fields {
  import opened Text
  import opened Scan
  import opened Regex

  // ---------------------------------------------------------------- IFSC

  /** An IFSC code: four capital letters, the digit zero, six capitals or digits. */
  predicate IsIfsc(w: string)
  {
    |w| == 11
    && (forall k | 0 <= k < 4 :: IsUpper(w[k]))
    && w[4] == '0'
    && (forall k | 5 <= k < 11 :: IsUpper(w[k]) || IsDigit(w[k]))
  }

  /** The 11 characters of `s` from `i` on form an IFSC code. */
  predicate IfscWindowAt(s: string, i: nat)
  {
    i + 11 <= |s| && IsIfsc(s[i..i + 11])
  }

  /** The IFSC pattern matches at `i` exactly when the 11 characters there form a code. */
  lemma IfscAtIff(s: string, i: nat)
    ensures MatchAt(IfscCode, s, i).Some? <==> IfscWindowAt(s, i)
    ensures MatchAt(IfscCode, s, i).Some? ==> MatchAt(IfscCode, s, i).value.end == i + 11
  {
    if i + 11 <= |s| {
      var w := s[i..i + 11];
      assert forall k | 0 <= k < 11 :: w[k] == s[i + k];
    }
  }

  /** `extract_ifsc`: the leftmost IFSC code in the text after the O-to-0
      substitution, or the empty string. */
  function ExtractIfsc(text: string): (r: string)
    ensures r == "" || (IsIfsc(r) && 'O' !in r)
  {
    var t := ZeroForO(text);
    var m := Search(MatcherOf(IfscCode), t);
    if m.Some? then
      IfscAtIff(t, m.value.start);
      Matched(t, m.value)
    else ""
  }

  /** Given the leftmost window of the substituted text that is an IFSC
      code, `extract_ifsc` returns exactly that window. */
  lemma ExtractIfscLeftmost(text: string, i: nat)
    requires IfscWindowAt(ZeroForO(text), i)
    requires forall j | 0 <= j < i :: !IfscWindowAt(ZeroForO(text), j)
    ensures ExtractIfsc(text) == ZeroForO(text)[i..i + 11]
  {
    var t := ZeroForO(text);
    IfscAtIff(t, i);
    forall j | 0 <= j < i ensures MatcherOf(IfscCode)(t, j).None? {
      IfscAtIff(t, j);
    }
    SearchFindsLeftmost(MatcherOf(IfscCode), t, i);
  }

  /** `extract_ifsc` returns the empty string exactly when no window of the
      substituted text is an IFSC code. */
  lemma ExtractIfscEmptyIff(text: string)
    ensures ExtractIfsc(text) == "" <==>
      forall j | 0 <= j <= |ZeroForO(text)| :: !IfscWindowAt(ZeroForO(text), j)
  {
    var t := ZeroForO(text);
    var f := MatcherOf(IfscCode);
    var m := Search(f, t);
    if m.Some? {
      IfscAtIff(t, m.value.start);
      assert ExtractIfsc(text) != "";
    } else {
      forall j | 0 <= j <= |t| ensures !IfscWindowAt(t, j) {
        IfscAtIff(t, j);
        assert f(t, j).None?;
      }
    }
  }

  // ---------------------------------------------------------------- amount

  /** A token of `\d+\.\d{2}`: one or more digits, a point, two digits. */
  predicate IsAmountToken(w: string)
  {
    |w| >= 4 && w[|w| - 3] == '.'
    && (forall k | 0 <= k < |w| - 3 :: IsDigit(w[k]))
    && IsDigit(w[|w| - 2]) && IsDigit(w[|w| - 1])
  }

  /** Backtracking over an all-digit prefix only ever succeeds at its longest length. */
  lemma {:induction false} AmountBacktrackDigits(s: string, i: nat, j: nat)
    requires i < j <= |s| && DigitsAt(s, i, j - i)
    ensures AmountBacktrack(s, i, j) ==
      if CharIn(s, j, ".") && DigitsAt(s, j + 1, 2) then Some(Match(i, j + 3, [s[i..j + 3]])) else None
    decreases j
  {
    if !(CharIn(s, j, ".") && DigitsAt(s, j + 1, 2)) && j - 1 > i {
      AmountBacktrackDigits(s, i, j - 1);
      assert IsDigit(s[j - 1]);
    }
  }

  /** The amount pattern matches at `i` exactly when the maximal run of
      digits there is followed by a point and two digits. */
  lemma AmountAtRun(s: string, i: nat)
    requires i <= |s|
    ensures var e := DigitRunEnd(s, i);
      MatchAt(AmountToken, s, i) ==
        if e > i && CharIn(s, e, ".") && DigitsAt(s, e + 1, 2) then Some(Match(i, e + 3, [s[i..e + 3]])) else None
  {
    var e := DigitRunEnd(s, i);
    if e > i {
      AmountBacktrackDigits(s, i, e);
    }
  }

  /** What the amount pattern matches is a token. */
  lemma AmountAtSound(s: string, i: nat)
    requires MatchAt(AmountToken, s, i).Some?
    ensures IsAmountToken(Matched(s, MatchAt(AmountToken, s, i).value))
  {
    AmountAtRun(s, i);
    var w := Matched(s, MatchAt(AmountToken, s, i).value);
    assert forall k | 0 <= k < |w| :: w[k] == s[i + k];
  }

  /** Wherever a token starts, the amount pattern matches that very token. */
  lemma AmountAtComplete(s: string, i: nat, j: nat)
    requires i <= j <= |s| && IsAmountToken(s[i..j])
    ensures MatchAt(AmountToken, s, i).Some? && MatchAt(AmountToken, s, i).value.end == j
  {
    var w := s[i..j];
    assert forall k | 0 <= k < |w| :: w[k] == s[i + k];
    var d := j - 3;
    var e := DigitRunEnd(s, i);
    assert forall k | i <= k < d :: IsDigit(s[k]);
    assert s[d] == '.';
    assert e == d;
    AmountAtRun(s, i);
  }

  /** The text the amount pattern is run on: commas dropped, letter O read as zero. */
  function AmountText(text: string): (t: string)
    ensures ',' !in t && 'O' !in t
  {
    var t := ZeroForO(Remove(text, ','));
    assert forall k | 0 <= k < |t| :: t[k] != ',';
    t
  }

  /** The tokens `re.findall` returns on the amount text, left to right. */
  function AmountTokens(text: string): (r: seq<string>)
    ensures forall k | 0 <= k < |r| :: IsAmountToken(r[k])
    ensures r == [] <==> forall j | 0 <= j <= |AmountText(text)| :: MatchAt(AmountToken, AmountText(text), j).None?
  {
    var t := AmountText(text);
    var ms := FindAll(MatcherOf(AmountToken), t);
    FindAllEmptyIff(MatcherOf(AmountToken), t, 0);
    forall k | 0 <= k < |ms| ensures ms[k].start <= ms[k].end <= |t| && IsAmountToken(Matched(t, ms[k])) {
      FindAllSound(MatcherOf(AmountToken), t, 0, k);
      AmountAtSound(t, ms[k].start);
    }
    seq(|ms|, k requires 0 <= k < |ms| => Matched(t, ms[k]))
  }

  /** `float(tok)` for a token, in hundredths: the number its digits spell
      once the decimal point is taken out. */
  function AmountCents(tok: string): (c: nat)
    requires IsAmountToken(tok)
    ensures c == DigitsValue(tok[..|tok| - 3] + tok[|tok| - 2..])
  {
    DigitsValueAppend2(tok[..|tok| - 3], tok[|tok| - 2..]);
    DigitsValue(tok[..|tok| - 3]) * 100 + DigitsValue(tok[|tok| - 2..])
  }

  /** `max(...)`, scanning left to right and replacing only on a strictly larger value. */
  function MaxOf(xs: seq<nat>): (m: nat)
    requires xs != []
    ensures m in xs
    ensures forall k | 0 <= k < |xs| :: xs[k] <= m
    decreases |xs|
  {
    if |xs| == 1 then xs[0]
    else
      var m := MaxOf(xs[..|xs| - 1]);
      assert forall k | 0 <= k < |xs| - 1 :: xs[..|xs| - 1][k] == xs[k];
      if xs[|xs| - 1] > m then xs[|xs| - 1] else m
  }

  /** The values of the scanned tokens, in hundredths, in scan order. */
  function AmountValues(text: string): seq<nat>
  {
    var toks := AmountTokens(text);
    seq(|toks|, k requires 0 <= k < |toks| => AmountCents(toks[k]))
  }

  /** `extract_amount`, as a value in hundredths: `None` when the scan finds
      no token, otherwise the value of one of the tokens and no smaller than
      any of them. */
  function ExtractAmount(text: string): (r: Option<nat>)
    ensures r.None? <==> AmountTokens(text) == []
    ensures r.Some? ==> r.value in AmountValues(text)
    ensures r.Some? ==> forall k | 0 <= k < |AmountValues(text)| :: AmountValues(text)[k] <= r.value
  {
    var values := AmountValues(text);
    if values == [] then None else Some(MaxOf(values))
  }

  /** The amount is missing exactly when no stretch of the amount text is a token. */
  lemma ExtractAmountNoneIff(text: string)
    ensures var t := AmountText(text);
      ExtractAmount(text).None? <==> forall i, j | 0 <= i <= j <= |t| :: !IsAmountToken(t[i..j])
  {
    var t := AmountText(text);
    if ExtractAmount(text).None? {
      forall i, j | 0 <= i <= j <= |t| ensures !IsAmountToken(t[i..j]) {
        if IsAmountToken(t[i..j]) {
          AmountAtComplete(t, i, j);
        }
      }
    } else {
      var j :| 0 <= j <= |t| && MatchAt(AmountToken, t, j).Some?;
      AmountAtSound(t, j);
      var m := MatchAt(AmountToken, t, j).value;
      assert IsAmountToken(t[j..m.end]);
    }
  }

  // ---------------------------------------------------------------- examples

  lemma ZeroedIfscExample(text: string)
    requires text == "IFSC SBIN0OO1234"
    ensures ZeroForO(text) == "IFSC SBIN0001234"
  {
    var t := ZeroForO(text);
    assert t[10] == '0' && t[11] == '0';
  }

  /** The code starts at position 5, and no window before it is a code. */
  lemma IfscWindowExample(t: string)
    requires t == "IFSC SBIN0001234"
    ensures IfscWindowAt(t, 5) && t[5..16] == "SBIN0001234"
    ensures forall j | 0 <= j < 5 :: !IfscWindowAt(t, j)
  {
    assert t[5..16] == "SBIN0001234";
    forall j | 0 <= j < 5 ensures !IfscWindowAt(t, j) {
      assert !IsUpper(t[4]) && t[j + 4] != '0';
    }
  }

  /** A letter O read where a zero was printed is corrected before matching. */
  lemma ExtractIfscExample()
    ensures ExtractIfsc("IFSC SBIN0OO1234") == "SBIN0001234"
  {
    ZeroedIfscExample("IFSC SBIN0OO1234");
    IfscWindowExample("IFSC SBIN0001234");
    ExtractIfscLeftmost("IFSC SBIN0OO1234", 5);
  }

  lemma RemoveCommaExample(s: string)
    requires s == "1,500.00"
    ensures Remove(s, ',') == "1500.00"
  {
    assert s[..1] == "1" && s[2..] == "500.00";
    RemoveOnce(s, ',', 1);
  }

  /** The amount example's text once the comma is dropped. */
  lemma AmountTextExample(s: string)
    requires s == "1,500.00"
    ensures AmountText(s) == "1500.00"
  {
    RemoveCommaExample(s);
    ZeroForOAbsent("1500.00");
  }

  lemma AmountScanExample()
    ensures FindAll(MatcherOf(AmountToken), "1500.00") == [Match(0, 7, ["1500.00"])]
  {
    var t := "1500.00";
    var f := MatcherOf(AmountToken);
    assert IsAmountToken(t[0..7]);
    AmountAtRun(t, 0);
    AmountAtComplete(t, 0, 7);
    assert t[0..7] == t;
    assert f(t, 0) == Some(Match(0, 7, [t]));
    AmountAtRun(t, 7);
    assert f(t, 7).None?;
    assert FindAllFrom(f, t, 7) == [];
  }

  /** When the scan finds one match covering the whole amount text, that text is the only token. */
  lemma AmountTokensWhole(text: string, g: seq<string>)
    requires FindAll(MatcherOf(AmountToken), AmountText(text)) == [Match(0, |AmountText(text)|, g)]
    ensures AmountTokens(text) == [AmountText(text)]
  {
    var t := AmountText(text);
    assert Matched(t, Match(0, |t|, g)) == t;
  }

  lemma AmountTokensExample()
    ensures AmountTokens("1,500.00") == ["1500.00"]
  {
    AmountTextExample("1,500.00");
    AmountScanExample();
    AmountTokensWhole("1,500.00", ["1500.00"]);
  }

  lemma AmountCentsExample()
    ensures AmountCents("1500.00") == 150000
  {
    var tok := "1500.00";
    assert tok[..4] == "1500" && tok[5..] == "00";
    assert DigitsValue("1500") == 1500 by {
      assert "1500"[..3] == "150" && "150"[..2] == "15" && "15"[..1] == "1" && "1"[..0] == "";
    }
    assert DigitsValue("00") == 0 by {
      assert "00"[..1] == "0" && "0"[..0] == "";
    }
  }

  /** Thousands separators are dropped and the value is read in hundredths. */
  lemma ExtractAmountExample()
    ensures ExtractAmount("1,500.00") == Some(150000)
  {
    AmountTokensExample();
    AmountCentsExample();
    var values := AmountValues("1,500.00");
    assert values == [150000];
  }

  /** The scan does not overlap: once "1.23" is taken, ".45" is no token. */
  lemma NonOverlapScan(t: string)
    requires t == "1.23.45"
    ensures FindAll(MatcherOf(AmountToken), t) == [Match(0, 4, ["1.23"])]
  {
    var f := MatcherOf(AmountToken);
    AmountAtRun(t, 0);
    assert DigitRunEnd(t, 0) == 1 by {
      assert !IsDigit(t[1]);
    }
    assert t[0..4] == "1.23";
    FindAllTake(f, t, 0);
    AmountAtRun(t, 4);
    FindAllSkip(f, t, 4);
    AmountAtRun(t, 5);
    FindAllSkip(f, t, 5);
    AmountAtRun(t, 6);
    FindAllSkip(f, t, 6);
    FindAllAtEnd(f, t);
  }

  lemma TwoAmountsText(text: string)
    requires text == "1500.00 200.50"
    ensures AmountText(text) == text
  {
    RemoveAbsent(text, ',');
    ZeroForOAbsent(text);
  }

  /** The amount pattern at the start of the two-amount text and just after the first amount. */
  lemma FirstAmountMatch(t: string)
    requires t == "1500.00 200.50"
    ensures MatcherOf(AmountToken)(t, 0) == Some(Match(0, 7, ["1500.00"]))
    ensures MatcherOf(AmountToken)(t, 7).None?
  {
    AmountAtRun(t, 0);
    assert DigitRunEnd(t, 0) == 4 by {
      assert !IsDigit(t[4]);
    }
    assert t[0..7] == "1500.00";
    AmountAtRun(t, 7);
  }

  /** The amount pattern where the second amount starts. */
  lemma SecondAmountMatch(t: string)
    requires t == "1500.00 200.50"
    ensures MatcherOf(AmountToken)(t, 8) == Some(Match(8, 14, ["200.50"]))
  {
    AmountAtRun(t, 8);
    assert DigitRunEnd(t, 8) == 11 by {
      assert !IsDigit(t[11]);
    }
    assert t[8..14] == "200.50";
  }

  /** The scan lists both amounts, left to right. */
  lemma TwoAmountsScan(t: string)
    requires t == "1500.00 200.50"
    ensures FindAll(MatcherOf(AmountToken), t) == [Match(0, 7, ["1500.00"]), Match(8, 14, ["200.50"])]
  {
    var f := MatcherOf(AmountToken);
    FirstAmountMatch(t);
    SecondAmountMatch(t);
    FindAllTake(f, t, 0);
    FindAllSkip(f, t, 7);
    FindAllTake(f, t, 8);
    FindAllAtEnd(f, t);
  }

  lemma TwoAmountsTokens(text: string)
    requires text == "1500.00 200.50"
    ensures AmountTokens(text) == ["1500.00", "200.50"]
  {
    TwoAmountsText(text);
    TwoAmountsScan(text);
    var t := AmountText(text);
    assert Matched(t, Match(0, 7, ["1500.00"])) == "1500.00";
    assert Matched(t, Match(8, 14, ["200.50"])) == "200.50";
  }

  lemma SmallerCentsExample()
    ensures AmountCents("200.50") == 20050
  {
    var tok := "200.50";
    assert tok[..3] == "200" && tok[4..] == "50";
    assert DigitsValue("200") == 200 by {
      assert "200"[..2] == "20" && "20"[..1] == "2" && "2"[..0] == "";
    }
    assert DigitsValue("50") == 50 by {
      assert "50"[..1] == "5" && "5"[..0] == "";
    }
  }

  /** With two tokens, the larger value is kept. */
  lemma ExtractAmountOfTwo(text: string, a: string, b: string)
    requires AmountTokens(text) == [a, b] && IsAmountToken(a) && IsAmountToken(b)
    requires AmountCents(a) >= AmountCents(b)
    ensures ExtractAmount(text) == Some(AmountCents(a))
  {
    var values := AmountValues(text);
    assert values[0] == AmountCents(a) && values[1] == AmountCents(b) && |values| == 2;
  }

  lemma TwoAmountsValues(text: string)
    requires text == "1500.00 200.50"
    ensures ExtractAmount(text) == Some(150000)
  {
    TwoAmountsTokens(text);
    AmountCentsExample();
    SmallerCentsExample();
    ExtractAmountOfTwo(text, "1500.00", "200.50");
  }

  /** Of two amounts the larger is kept, though it comes first. */
  lemma ExtractAmountMaxExample()
    ensures ExtractAmount("1500.00 200.50") == Some(150000)
  {
    TwoAmountsValues("1500.00 200.50");
  }
}
