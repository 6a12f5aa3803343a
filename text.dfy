/** Characters, strings and the optional values the extractors return.
    Only ASCII is given meaning: a character outside it is never a digit,
    a letter, a word character or white space, and upper-casing leaves it alone. */
module Text {

  datatype Option<T> = None | Some(value: T)

  predicate IsDigit(c: char) { '0' <= c <= '9' }
  predicate IsUpper(c: char) { 'A' <= c <= 'Z' }
  predicate IsLower(c: char) { 'a' <= c <= 'z' }
  predicate IsLetter(c: char) { IsUpper(c) || IsLower(c) }

  /** The characters `\w` and `\b` treat as part of a word. */
  predicate IsWordChar(c: char) { IsLetter(c) || IsDigit(c) || c == '_' }

  /** The ASCII characters Python's `\s` matches in a `str` pattern:
      tab, line feed, vertical tab, form feed, carriage return,
      the four separators 0x1C-0x1F, and space. */
  predicate IsSpace(c: char) { 9 <= c as int <= 13 || 28 <= c as int <= 32 }

  /** `str.upper()` on one ASCII character. */
  function ToUpper(c: char): (r: char)
    ensures IsLower(c) ==> IsUpper(r) && r as int == c as int - 32
    ensures !IsLower(c) ==> r == c
  {
    if IsLower(c) then (c as int - 32) as char else c
  }

  /** `s.upper()`: no lower-case letter is left, each one becomes its
      capital, and every other character stays where it was. */
  function Upper(s: string): (r: string)
    ensures |r| == |s|
    ensures forall k | 0 <= k < |r| :: !IsLower(r[k])
    ensures forall k | 0 <= k < |s| :: IsLower(s[k]) ==> IsUpper(r[k]) && r[k] as int == s[k] as int - 32
    ensures forall k | 0 <= k < |s| :: !IsLower(s[k]) ==> r[k] == s[k]
  {
    seq(|s|, k requires 0 <= k < |s| => ToUpper(s[k]))
  }

  /** Upper-casing leaves a string without lower-case letters alone. */
  lemma UpperWithoutLower(s: string)
    requires forall k | 0 <= k < |s| :: !IsLower(s[k])
    ensures Upper(s) == s
  {
  }

  /** Upper-casing twice is upper-casing once. */
  lemma UpperIdempotent(s: string)
    ensures Upper(Upper(s)) == Upper(s)
  {
    assert forall k | 0 <= k < |s| :: ToUpper(ToUpper(s[k])) == ToUpper(s[k]);
  }

  /** `s.replace(a, b)` for one-character `a` and `b`. */
  function Replace(s: string, a: char, b: char): (r: string)
    ensures |r| == |s|
    ensures forall k | 0 <= k < |s| :: r[k] == if s[k] == a then b else s[k]
  {
    seq(|s|, k requires 0 <= k < |s| => if s[k] == a then b else s[k])
  }

  /** `s.replace("O", "0")`, which the IFSC, amount and date extractors
      apply first: every capital letter O is read as the digit zero. */
  function ZeroForO(s: string): (t: string)
    ensures 'O' !in t
    ensures |t| == |s|
    ensures forall k | 0 <= k < |s| :: t[k] == if s[k] == 'O' then '0' else s[k]
  {
    Replace(s, 'O', '0')
  }

  /** A string without the letter O is left alone. */
  lemma ZeroForOAbsent(s: string)
    requires 'O' !in s
    ensures ZeroForO(s) == s
  {
    assert forall k | 0 <= k < |s| :: ZeroForO(s)[k] == s[k];
  }

  /** `s.replace(a, "")`: the characters of `s` other than `a`, in order. */
  function Remove(s: string, a: char): (r: string)
    ensures a !in r
    ensures |r| <= |s|
    decreases |s|
  {
    if s == [] then []
    else (if s[0] == a then [] else [s[0]]) + Remove(s[1..], a)
  }

  /** Removing from one character keeps it unless it is the one removed. */
  lemma RemoveSingle(c: char, a: char)
    ensures Remove([c], a) == if c == a then [] else [c]
  {
    assert [c][1..] == [];
  }

  /** Removal works piece by piece: whatever is kept of `x` comes, in order,
      before whatever is kept of `y`. */
  lemma {:induction false} RemoveConcat(x: string, y: string, a: char)
    ensures Remove(x + y, a) == Remove(x, a) + Remove(y, a)
    decreases |x|
  {
    if x != [] {
      assert (x + y)[0] == x[0];
      assert (x + y)[1..] == x[1..] + y;
      RemoveConcat(x[1..], y, a);
    } else {
      assert x + y == y;
    }
  }

  /** Removing a character that does not occur changes nothing. */
  lemma {:induction false} RemoveAbsent(s: string, a: char)
    requires a !in s
    ensures Remove(s, a) == s
    decreases |s|
  {
    if s != [] {
      RemoveAbsent(s[1..], a);
      assert s == [s[0]] + s[1..];
    }
  }

  /** Removing a character that occurs once cuts out just that occurrence. */
  lemma {:induction false} RemoveOnce(s: string, a: char, i: nat)
    requires i < |s| && s[i] == a && a !in s[..i] && a !in s[i + 1..]
    ensures Remove(s, a) == s[..i] + s[i + 1..]
    decreases |s|
  {
    if i == 0 {
      RemoveAbsent(s[1..], a);
    } else {
      assert s[1..][..i - 1] == s[1..i];
      assert s[1..][i - 1 + 1..] == s[i + 1..];
      RemoveOnce(s[1..], a, i - 1);
      assert s[..i] == [s[0]] + s[1..i];
    }
  }

  /** `s[:n]`. */
  function Prefix(s: string, n: nat): (r: string)
    ensures |s| <= n ==> r == s
    ensures n < |s| ==> r == s[..n]
  {
    if |s| <= n then s else s[..n]
  }

  /** Python's `needle in hay` on strings. */
  predicate Contains(hay: string, needle: string)
  {
    exists k | 0 <= k <= |hay| - |needle| :: OccursAt(hay, needle, k)
  }

  /** `needle` is the slice of `hay` that starts at `k`. */
  predicate OccursAt(hay: string, needle: string, k: nat)
  {
    k + |needle| <= |hay| && hay[k..k + |needle|] == needle
  }

  /** The index of the first element of `xs` from `k` on that satisfies `p`,
      as a `for ... : if ...: return` loop finds it. */
  function FirstWhere<T>(xs: seq<T>, p: T -> bool, k: nat): (r: Option<nat>)
    ensures r.Some? ==> k <= r.value < |xs| && p(xs[r.value])
    ensures r.Some? ==> forall q | k <= q < r.value :: !p(xs[q])
    ensures r.None? ==> forall q | k <= q < |xs| :: !p(xs[q])
    decreases |xs| - k
  {
    if k >= |xs| then None
    else if p(xs[k]) then Some(k)
    else FirstWhere(xs, p, k + 1)
  }

  /** The first element satisfying `p` is the one `FirstWhere` finds. */
  lemma FirstWhereFinds<T>(xs: seq<T>, p: T -> bool, q: nat)
    requires q < |xs| && p(xs[q]) && forall r | 0 <= r < q :: !p(xs[r])
    ensures FirstWhere(xs, p, 0) == Some(q)
  {
  }

  predicate AllDigits(s: string) { forall k | 0 <= k < |s| :: IsDigit(s[k]) }

  function DigitValue(c: char): (r: nat)
    ensures IsDigit(c) ==> r <= 9
  {
    if IsDigit(c) then c as int - '0' as int else 0
  }

  function DigitChar(d: nat): (c: char)
    requires d <= 9
    ensures IsDigit(c) && DigitValue(c) == d
  {
    ('0' as int + d) as char
  }

  /** `int(s)` for a string of ASCII digits. */
  function DigitsValue(s: string): nat
    decreases |s|
  {
    if s == [] then 0 else DigitsValue(s[..|s| - 1]) * 10 + DigitValue(s[|s| - 1])
  }

  /** `str(n)`: decimal digits without leading zeros. */
  function NatToString(n: nat): (r: string)
    ensures |r| >= 1 && AllDigits(r)
    ensures n < 10 <==> |r| == 1
    decreases n
  {
    if n < 10 then [DigitChar(n)] else NatToString(n / 10) + [DigitChar(n % 10)]
  }

  /** `f"{n:02d}"`: at least two digits, padded with a leading zero. */
  function Format02(n: nat): (r: string)
    ensures AllDigits(r)
    ensures n < 100 ==> |r| == 2
  {
    if n < 10 then "0" + NatToString(n) else NatToString(n)
  }

  lemma DivMod10(a: nat, b: nat)
    requires a <= 9 && b <= 9
    ensures (a * 10 + b) / 10 == a && (a * 10 + b) % 10 == b
  {
  }

  lemma DigitsValue2(d: string)
    requires |d| == 2
    ensures DigitsValue(d) == DigitValue(d[0]) * 10 + DigitValue(d[1])
  {
    var h := d[..1];
    assert h[..0] == [] && h[0] == d[0];
    assert DigitsValue(h) == DigitsValue(h[..0]) * 10 + DigitValue(h[0]);
    assert DigitsValue(d) == DigitsValue(h) * 10 + DigitValue(d[1]);
  }

  /** Appending two digits multiplies the value by a hundred and adds theirs. */
  lemma DigitsValueAppend2(x: string, y: string)
    requires |y| == 2
    ensures DigitsValue(x + y) == DigitsValue(x) * 100 + DigitsValue(y)
  {
    var xy, xa := x + y, x + [y[0]];
    assert xy[..|xy| - 1] == xa && xy[|xy| - 1] == y[1];
    assert xa[..|xa| - 1] == x && xa[|xa| - 1] == y[0];
    DigitsValue2(y);
  }

  lemma DigitsValue1(d: string)
    requires |d| == 1
    ensures DigitsValue(d) == DigitValue(d[0])
  {
    assert d[..0] == [];
  }

  lemma DigitCharOfValue(c: char)
    requires IsDigit(c)
    ensures DigitChar(DigitValue(c)) == c
  {
  }

  /** `int(d)` rendered with `:02d` gives back a two-digit `d` and pads a one-digit one. */
  lemma Format02OfDigits(d: string)
    requires 1 <= |d| <= 2 && AllDigits(d)
    ensures Format02(DigitsValue(d)) == if |d| == 1 then "0" + d else d
  {
    if |d| == 2 {
      DigitsValue2(d);
      var a, b := DigitValue(d[0]), DigitValue(d[1]);
      DigitCharOfValue(d[0]);
      DigitCharOfValue(d[1]);
      var n := a * 10 + b;
      if a == 0 {
        assert n == b;
        assert Format02(n) == "0" + [DigitChar(b)];
        assert d == [d[0], d[1]];
      } else {
        DivMod10(a, b);
        assert NatToString(n) == NatToString(a) + [DigitChar(b)];
        assert d == [d[0], d[1]];
      }
    } else {
      DigitsValue1(d);
      DigitCharOfValue(d[0]);
      assert d == [d[0]];
    }
  }

  /** `str.isalpha()`: non-empty and letters only. */
  predicate IsAlpha(s: string) { |s| > 0 && forall k | 0 <= k < |s| :: IsLetter(s[k]) }
}
