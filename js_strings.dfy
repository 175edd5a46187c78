/**
 * The JavaScript string and array built-ins the page script relies on:
 * String.prototype.trim, the conversion of a non-negative integer Number
 * to its decimal String, Array.prototype.join and the
 * `filter(c => c !== x)` idiom used to delete an element.
 */
module JsStrings {

  /** No element occurs twice. */
  predicate NoDup<T(==)>(s: seq<T>) {
    forall i, j :: 0 <= i < j < |s| ==> s[i] != s[j]
  }

  /** `x` occurs in `t` as a contiguous piece. */
  ghost predicate IsInfix(x: string, t: string) {
    exists pre, post :: t == pre + x + post
  }

  // ---------------------------------------------------------------- trim

  /**
   * The code points String.prototype.trim strips: the WhiteSpace and the
   * LineTerminator code points of ECMA-262 (sections 12.2 and 12.3), that is
   * TAB, VT, FF, ZWNBSP, every space separator of Unicode category Zs,
   * LF, CR, LINE SEPARATOR and PARAGRAPH SEPARATOR.
   */
  predicate IsJsWhitespace(c: char) {
    || c == '\t' || c == '\U{000B}' || c == '\U{000C}' || c == '\U{FEFF}'
    || c == ' ' || c == '\U{00A0}' || c == '\U{1680}'
    || ('\U{2000}' <= c <= '\U{200A}')
    || c == '\U{202F}' || c == '\U{205F}' || c == '\U{3000}'
    || c == '\n' || c == '\r' || c == '\U{2028}' || c == '\U{2029}'
  }

  predicate AllWhitespace(s: string) {
    forall k :: 0 <= k < |s| ==> IsJsWhitespace(s[k])
  }

  /** Number of leading whitespace code points. */
  function LeadingSpace(s: string): (n: nat)
    ensures n <= |s|
    ensures AllWhitespace(s[..n])
    ensures n < |s| ==> !IsJsWhitespace(s[n])
  {
    if s != [] && IsJsWhitespace(s[0]) then
      var m := LeadingSpace(s[1..]);
      assert s[..1 + m] == [s[0]] + s[1..][..m];
      1 + m
    else 0
  }

  /** Index at which the trailing whitespace starts. */
  function TrailingStart(s: string): (n: nat)
    ensures n <= |s|
    ensures AllWhitespace(s[n..])
    ensures n > 0 ==> !IsJsWhitespace(s[n - 1])
  {
    if s != [] && IsJsWhitespace(s[|s| - 1]) then
      var m := TrailingStart(s[..|s| - 1]);
      assert s[m..] == s[..|s| - 1][m..] + [s[|s| - 1]];
      m
    else |s|
  }

  /** String.prototype.trim. */
  function Trim(s: string): (r: string)
    ensures |r| <= |s|
    ensures r == [] <==> AllWhitespace(s)
    ensures r != [] ==> !IsJsWhitespace(r[0]) && !IsJsWhitespace(r[|r| - 1])
  {
    var t := s[LeadingSpace(s)..];
    var r := t[..TrailingStart(t)];
    assert AllWhitespace(s) ==> LeadingSpace(s) == |s|;
    assert r == [] ==> s == s[..LeadingSpace(s)] + t[TrailingStart(t)..];
    r
  }

  /** Trim removes whitespace at both ends and nothing else. */
  lemma TrimStripsOnlyWhitespace(s: string)
    ensures exists pre, post ::
      s == pre + Trim(s) + post && AllWhitespace(pre) && AllWhitespace(post)
  {
    var n := LeadingSpace(s);
    var t := s[n..];
    var m := TrailingStart(t);
    assert s == s[..n] + Trim(s) + t[m..];
  }

  /** A string without whitespace at either end is its own trim. */
  lemma TrimOfTrimmed(s: string)
    requires s != [] ==> !IsJsWhitespace(s[0]) && !IsJsWhitespace(s[|s| - 1])
    ensures Trim(s) == s
  {
    if s != [] {
      assert LeadingSpace(s) == 0;
      assert TrailingStart(s) == |s|;
    }
  }

  /** Trimming twice is trimming once. */
  lemma TrimIdempotent(s: string)
    ensures Trim(Trim(s)) == Trim(s)
  {
    TrimOfTrimmed(Trim(s));
  }

  // ------------------------------------------------- Number to String

  function DigitChar(d: nat): (c: char)
    requires d < 10
    ensures '0' <= c <= '9'
  {
    ['0', '1', '2', '3', '4', '5', '6', '7', '8', '9'][d]
  }

  function DigitValue(c: char): (d: nat)
    ensures d < 10
  {
    if '0' <= c <= '9' then (c as int - '0' as int) else 0
  }

  predicate AllDigits(s: string) {
    forall k :: 0 <= k < |s| ==> '0' <= s[k] <= '9'
  }

  /** The value of a string of decimal digits. */
  function ParseDecimal(s: string): nat {
    if s == [] then 0 else 10 * ParseDecimal(s[..|s| - 1]) + DigitValue(s[|s| - 1])
  }

  /**
   * `String(n)` for a non-negative integer Number: its decimal digits,
   * without leading zeros.
   */
  function DecimalString(n: nat): (r: string)
    ensures r != [] && AllDigits(r)
    ensures r[0] == '0' ==> r == "0"
    decreases n
  {
    if n < 10 then [DigitChar(n)] else DecimalString(n / 10) + [DigitChar(n % 10)]
  }

  /** Reading back the decimal rendering of `n` gives `n`. */
  lemma {:induction false} DecimalRoundTrip(n: nat)
    ensures ParseDecimal(DecimalString(n)) == n
    decreases n
  {
    var r := DecimalString(n);
    assert DigitValue(DigitChar(n % 10)) == n % 10 by {
      assert '0' as int + n % 10 == DigitChar(n % 10) as int;
    }
    if n >= 10 {
      assert r[..|r| - 1] == DecimalString(n / 10);
      DecimalRoundTrip(n / 10);
    }
  }

  /** Rendering a canonical digit string's value gives the string back. */
  lemma {:induction false} CanonicalDecimalRoundTrip(s: string)
    requires s != [] && AllDigits(s) && (s[0] == '0' ==> |s| == 1)
    ensures DecimalString(ParseDecimal(s)) == s
    decreases |s|
  {
    var last := s[|s| - 1];
    var d := DigitValue(last);
    assert DigitChar(d) == last by {
      assert DigitChar(d) as int == last as int;
    }
    if |s| > 1 {
      var init := s[..|s| - 1];
      var p := ParseDecimal(init);
      CanonicalDecimalRoundTrip(init);
      LeadingDigitPositive(init);
      var n := 10 * p + d;
      assert n / 10 == p && n % 10 == d;
      assert DecimalString(n) == DecimalString(p) + [DigitChar(d)];
      assert s == init + [last];
    }
  }

  lemma {:induction false} LeadingDigitPositive(s: string)
    requires s != [] && AllDigits(s) && s[0] != '0'
    ensures ParseDecimal(s) > 0
    decreases |s|
  {
    if |s| > 1 {
      LeadingDigitPositive(s[..|s| - 1]);
    } else {
      assert DigitValue(s[0]) > 0;
    }
  }

  // -------------------------------------------------------------- join

  /** Array.prototype.join on an array of strings. */
  function Join(xs: seq<string>, sep: string): (r: string)
    ensures |xs| == 1 ==> r == xs[0]
    decreases |xs|
  {
    if xs == [] then ""
    else if |xs| == 1 then xs[0]
    else xs[0] + sep + Join(xs[1..], sep)
  }

  /** Every joined element appears in the result. */
  lemma {:induction false} JoinContains(xs: seq<string>, sep: string, i: nat)
    requires i < |xs|
    ensures IsInfix(xs[i], Join(xs, sep))
    decreases |xs|
  {
    var r := Join(xs, sep);
    if |xs| == 1 {
      assert r == [] + xs[0] + [];
    } else if i == 0 {
      assert r == [] + xs[0] + (sep + Join(xs[1..], sep));
    } else {
      JoinContains(xs[1..], sep, i - 1);
      var pre, post :| Join(xs[1..], sep) == pre + xs[i] + post;
      assert r == (xs[0] + sep + pre) + xs[i] + post;
    }
  }

  /** A join of at least one element ends with the last element. */
  lemma {:induction false} JoinEndsWithLast(xs: seq<string>, sep: string)
    requires xs != []
    ensures var r := Join(xs, sep); var l := xs[|xs| - 1];
      |l| <= |r| && r[|r| - |l|..] == l
    decreases |xs|
  {
    if |xs| > 1 {
      JoinEndsWithLast(xs[1..], sep);
      var rest := Join(xs[1..], sep);
      var l := xs[|xs| - 1];
      assert Join(xs, sep)[|Join(xs, sep)| - |l|..] == rest[|rest| - |l|..];
    }
  }

  // ----------------------------------------------------- filter(!==)

  /** `xs.filter(c => c !== x)`. */
  function Without(xs: seq<string>, x: string): (r: seq<string>)
    ensures forall y :: y in r <==> y in xs && y != x
    ensures |r| <= |xs|
  {
    if xs == [] then []
    else if xs[0] == x then Without(xs[1..], x)
    else [xs[0]] + Without(xs[1..], x)
  }

  /** Removing an absent element changes nothing. */
  lemma {:induction false} WithoutAbsent(xs: seq<string>, x: string)
    requires x !in xs
    ensures Without(xs, x) == xs
  {
    if xs != [] {
      WithoutAbsent(xs[1..], x);
    }
  }

  /**
   * In an array without duplicates, removing the element at index `i`
   * keeps the others in their order.
   */
  lemma {:induction false} WithoutAt(xs: seq<string>, i: nat)
    requires NoDup(xs) && i < |xs|
    ensures Without(xs, xs[i]) == xs[..i] + xs[i + 1..]
  {
    if i == 0 {
      WithoutAbsent(xs[1..], xs[0]);
    } else {
      WithoutAt(xs[1..], i - 1);
      assert xs[1..][..i - 1] == xs[1..i];
      assert xs[..i] == [xs[0]] + xs[1..i];
    }
  }

  /** Removing an element keeps an array free of duplicates. */
  lemma {:induction false} WithoutKeepsNoDup(xs: seq<string>, x: string)
    requires NoDup(xs)
    ensures NoDup(Without(xs, x))
  {
    if xs != [] {
      var rest := Without(xs[1..], x);
      WithoutKeepsNoDup(xs[1..], x);
      if xs[0] != x {
        assert xs[0] !in xs[1..];
        assert xs[0] !in rest;
        var r := [xs[0]] + rest;
        forall i, j | 0 <= i < j < |r| ensures r[i] != r[j] {
          if i == 0 { assert r[j] == rest[j - 1]; assert r[j] in rest; }
        }
      }
    }
  }
}
