/**
 * Numeric text as the scraper reads it: the regular-expression number token
 * `[-+]?[0-9]*\.?[0-9]+` of the coordinate patterns, a hand-written scanner
 * that finds its longest occurrence at a position, exact decimals standing in
 * for Python `float`s, and the grammar and value of Python's `int()`.
 */
module Numbers {
  import opened Wrappers
  import opened Text

  predicate IsSign(c: char) {
    c == '+' || c == '-'
  }

  /** The characters a number token can contain. */
  predicate IsNumberChar(c: char) {
    IsDigit(c) || IsSign(c) || c == '.'
  }

  /** Every character of `s[lo..hi]` is a digit. */
  predicate DigitsIn(s: string, lo: nat, hi: nat)
    requires lo <= hi <= |s|
  {
    forall k :: lo <= k < hi ==> IsDigit(s[k])
  }

  predicate AllDigits(s: string) {
    DigitsIn(s, 0, |s|)
  }

  /** `s[lo..hi]` is `[0-9]*\.?[0-9]+`: digits, or digits, a dot and at least one digit. */
  ghost predicate UnsignedIn(s: string, lo: nat, hi: nat)
    requires lo <= hi <= |s|
  {
    (lo < hi && DigitsIn(s, lo, hi)) ||
    (exists m :: lo <= m < hi - 1 && s[m] == '.' && DigitsIn(s, lo, m) && DigitsIn(s, m + 1, hi))
  }

  /** `s[lo..hi]` is the number token `[-+]?[0-9]*\.?[0-9]+` of both coordinate patterns. */
  ghost predicate NumberIn(s: string, lo: nat, hi: nat)
    requires lo <= hi <= |s|
  {
    UnsignedIn(s, lo, hi) || (lo < hi && IsSign(s[lo]) && UnsignedIn(s, lo + 1, hi))
  }

  /** A whole string is one number token. */
  ghost predicate IsNumber(t: string) {
    NumberIn(t, 0, |t|)
  }

  lemma UnsignedChars(s: string, lo: nat, hi: nat)
    requires lo <= hi <= |s| && UnsignedIn(s, lo, hi)
    ensures lo < hi && (IsDigit(s[lo]) || s[lo] == '.')
    ensures forall k :: lo <= k < hi ==> IsDigit(s[k]) || s[k] == '.'
  {
  }

  /** A number token is made of number characters only, so it never runs into a delimiter such as `!` or `,`. */
  lemma NumberChars(s: string, lo: nat, hi: nat)
    requires lo <= hi <= |s| && NumberIn(s, lo, hi)
    ensures lo < hi
    ensures forall k :: lo <= k < hi ==> IsNumberChar(s[k])
  {
    if UnsignedIn(s, lo, hi) {
      UnsignedChars(s, lo, hi);
    } else {
      UnsignedChars(s, lo + 1, hi);
    }
  }

  /** End of the maximal run of digits starting at `i`. */
  function DigitRun(s: string, i: nat): (j: nat)
    requires i <= |s|
    ensures i <= j <= |s|
    ensures DigitsIn(s, i, j)
    ensures j < |s| ==> !IsDigit(s[j])
    decreases |s| - i
  {
    if i == |s| || !IsDigit(s[i]) then i else DigitRun(s, i + 1)
  }

  /**
   * End of the longest `[0-9]*\.?[0-9]+` starting at `p`, or None: the digits,
   * then a dot and its digits when the dot is followed by at least one digit.
   */
  function ScanUnsigned(s: string, p: nat): (r: Option<nat>)
    requires p <= |s|
    ensures r.Some? ==> p < r.value <= |s|
  {
    var j := DigitRun(s, p);
    if j < |s| && s[j] == '.' && DigitRun(s, j + 1) > j + 1 then Some(DigitRun(s, j + 1))
    else if j > p then Some(j)
    else None
  }

  /** End of the longest number token starting at `i`, or None when no token starts there. */
  function ScanNumber(s: string, i: nat): (r: Option<nat>)
    requires i <= |s|
    ensures r.Some? ==> i < r.value <= |s|
  {
    if i < |s| && IsSign(s[i]) then ScanUnsigned(s, i + 1) else ScanUnsigned(s, i)
  }

  /** In an unsigned number, the first non-digit is its one dot, and digits follow it to the end. */
  lemma FirstNonDigitIsDot(s: string, lo: nat, hi: nat, j: nat)
    requires lo <= j < hi <= |s| && UnsignedIn(s, lo, hi)
    requires DigitsIn(s, lo, j) && !IsDigit(s[j])
    ensures s[j] == '.' && j + 1 < hi && DigitsIn(s, j + 1, hi)
  {
    var m :| lo <= m < hi - 1 && s[m] == '.' && DigitsIn(s, lo, m) && DigitsIn(s, m + 1, hi);
    assert m == j;
  }

  lemma {:induction false} ScanUnsignedLongest(s: string, p: nat)
    requires p <= |s|
    ensures ScanUnsigned(s, p).Some? ==> UnsignedIn(s, p, ScanUnsigned(s, p).value)
    ensures forall k :: p <= k <= |s| && UnsignedIn(s, p, k) ==>
              ScanUnsigned(s, p).Some? && k <= ScanUnsigned(s, p).value
  {
    var j := DigitRun(s, p);
    if j < |s| && s[j] == '.' && DigitRun(s, j + 1) > j + 1 {
      assert UnsignedIn(s, p, DigitRun(s, j + 1));
    }
    forall k | p <= k <= |s| && UnsignedIn(s, p, k)
      ensures ScanUnsigned(s, p).Some? && k <= ScanUnsigned(s, p).value
    {
      if k > j {
        FirstNonDigitIsDot(s, p, k, j);
      }
    }
  }

  /**
   * The scanner finds the longest number token starting at `i`, and finds
   * nothing exactly when no number token starts there.
   */
  lemma ScanNumberLongest(s: string, i: nat)
    requires i <= |s|
    ensures ScanNumber(s, i).Some? ==> NumberIn(s, i, ScanNumber(s, i).value)
    ensures forall k :: i <= k <= |s| && NumberIn(s, i, k) ==>
              ScanNumber(s, i).Some? && k <= ScanNumber(s, i).value
  {
    if i < |s| && IsSign(s[i]) {
      ScanUnsignedLongest(s, i + 1);
      forall k | i <= k <= |s| && NumberIn(s, i, k)
        ensures ScanNumber(s, i).Some? && k <= ScanNumber(s, i).value
      {
        if UnsignedIn(s, i, k) {
          UnsignedChars(s, i, k);
        }
      }
    } else {
      ScanUnsignedLongest(s, i);
    }
  }

  /** The executable test for a whole number token. */
  predicate IsNumberText(t: string) {
    ScanNumber(t, 0) == Some(|t|)
  }

  lemma NumberTextIffNumber(t: string)
    ensures IsNumberText(t) <==> IsNumber(t)
  {
    ScanNumberLongest(t, 0);
  }

  // ---------------------------------------------------------------------
  // Decimals: what Python's float() makes of a number token, kept exact.

  datatype Sign = NoSign | Plus | Minus

  /** A number token split into its sign, its integer digits and its fraction digits. */
  datatype Decimal = Decimal(sign: Sign, whole: string, fraction: string)

  predicate WellFormed(d: Decimal) {
    AllDigits(d.whole) && AllDigits(d.fraction) && (d.whole != [] || d.fraction != [])
  }

  function SignText(sign: Sign): string {
    match sign
    case NoSign => ""
    case Plus => "+"
    case Minus => "-"
  }

  /** The token without its sign. */
  function UnsignedText(d: Decimal): string {
    if d.fraction == [] then d.whole else d.whole + "." + d.fraction
  }

  /** The token a decimal was read from. */
  function Format(d: Decimal): string {
    SignText(d.sign) + UnsignedText(d)
  }

  /** First position of `c` in `s[lo..hi]`, or `hi`. */
  function IndexOf(s: string, lo: nat, hi: nat, c: char): (m: nat)
    requires lo <= hi <= |s|
    ensures lo <= m <= hi
    ensures forall k :: lo <= k < m ==> s[k] != c
    ensures m < hi ==> s[m] == c
    decreases hi - lo
  {
    if lo == hi || s[lo] == c then lo else IndexOf(s, lo + 1, hi, c)
  }

  /** Reads unsigned number text `s[start..hi]`: the digits before its first dot and those after it. */
  function ParseUnsignedAt(sign: Sign, s: string, start: nat, hi: nat): (d: Decimal)
    requires start <= hi <= |s|
    ensures d.sign == sign
  {
    var m := IndexOf(s, start, hi, '.');
    Decimal(sign, s[start..m], if m < hi then s[m + 1..hi] else "")
  }

  /** Reads the number token `s[lo..hi]`: its sign, then the unsigned rest. */
  function ParseAt(s: string, lo: nat, hi: nat): Decimal
    requires lo <= hi <= |s|
  {
    if lo < hi && s[lo] == '-' then ParseUnsignedAt(Minus, s, lo + 1, hi)
    else if lo < hi && s[lo] == '+' then ParseUnsignedAt(Plus, s, lo + 1, hi)
    else ParseUnsignedAt(NoSign, s, lo, hi)
  }

  function Parse(t: string): Decimal {
    ParseAt(t, 0, |t|)
  }

  lemma DigitsSlice(s: string, lo: nat, hi: nat)
    requires lo <= hi <= |s| && DigitsIn(s, lo, hi)
    ensures AllDigits(s[lo..hi])
  {
    assert forall k :: 0 <= k < hi - lo ==> s[lo..hi][k] == s[lo + k];
  }

  lemma DigitsParse(sign: Sign, s: string, start: nat, hi: nat)
    requires start < hi <= |s| && DigitsIn(s, start, hi)
    ensures ParseUnsignedAt(sign, s, start, hi) == Decimal(sign, s[start..hi], "")
    ensures AllDigits(s[start..hi])
  {
    DigitsSlice(s, start, hi);
  }

  lemma DottedParse(sign: Sign, s: string, start: nat, m: nat, hi: nat)
    requires start <= m < hi - 1 && hi <= |s| && s[m] == '.'
    requires DigitsIn(s, start, m) && DigitsIn(s, m + 1, hi)
    ensures ParseUnsignedAt(sign, s, start, hi) == Decimal(sign, s[start..m], s[m + 1..hi])
    ensures AllDigits(s[start..m]) && AllDigits(s[m + 1..hi])
    ensures s[start..hi] == s[start..m] + "." + s[m + 1..hi]
  {
    DottedUnsigned(s, start, m, hi);
    DigitsSlice(s, start, m);
    DigitsSlice(s, m + 1, hi);
  }

  lemma UnsignedParse(sign: Sign, s: string, start: nat, hi: nat)
    requires start <= hi <= |s| && UnsignedIn(s, start, hi)
    ensures WellFormed(ParseUnsignedAt(sign, s, start, hi))
    ensures UnsignedText(ParseUnsignedAt(sign, s, start, hi)) == s[start..hi]
  {
    if start < hi && DigitsIn(s, start, hi) {
      DigitsParse(sign, s, start, hi);
    } else {
      var m :| start <= m < hi - 1 && s[m] == '.' && DigitsIn(s, start, m) && DigitsIn(s, m + 1, hi);
      DottedParse(sign, s, start, m, hi);
    }
  }

  lemma UnsignedParseAt(s: string, lo: nat, hi: nat)
    requires lo <= hi <= |s| && UnsignedIn(s, lo, hi)
    ensures WellFormed(ParseAt(s, lo, hi)) && Format(ParseAt(s, lo, hi)) == s[lo..hi]
  {
    UnsignedChars(s, lo, hi);
    assert ParseAt(s, lo, hi) == ParseUnsignedAt(NoSign, s, lo, hi);
    UnsignedParse(NoSign, s, lo, hi);
  }

  lemma SignedParseAt(s: string, lo: nat, hi: nat)
    requires lo < hi <= |s| && IsSign(s[lo]) && UnsignedIn(s, lo + 1, hi)
    ensures WellFormed(ParseAt(s, lo, hi)) && Format(ParseAt(s, lo, hi)) == s[lo..hi]
  {
    var sign := if s[lo] == '-' then Minus else Plus;
    assert ParseAt(s, lo, hi) == ParseUnsignedAt(sign, s, lo + 1, hi);
    UnsignedParse(sign, s, lo + 1, hi);
    assert s[lo..hi] == SignText(sign) + s[lo + 1..hi];
  }

  /** Parsing a number token and formatting it back gives the token again. */
  lemma ParseAtFormat(s: string, lo: nat, hi: nat)
    requires lo <= hi <= |s| && NumberIn(s, lo, hi)
    ensures WellFormed(ParseAt(s, lo, hi)) && Format(ParseAt(s, lo, hi)) == s[lo..hi]
  {
    if UnsignedIn(s, lo, hi) {
      UnsignedParseAt(s, lo, hi);
    } else {
      SignedParseAt(s, lo, hi);
    }
  }

  lemma ParseFormat(t: string)
    requires IsNumber(t)
    ensures WellFormed(Parse(t)) && Format(Parse(t)) == t
  {
    ParseAtFormat(t, 0, |t|);
    assert t[0..|t|] == t;
  }

  /** After a prefix `p`, the digits `w` form an unsigned number with no dot. */
  lemma WholeShape(p: string, w: string, t: string)
    requires t == p + w && AllDigits(w) && w != []
    ensures UnsignedIn(t, |p|, |t|) && IndexOf(t, |p|, |t|, '.') == |t|
    ensures t[|p|..] == w
  {
    assert forall k :: |p| <= k < |t| ==> t[k] == w[k - |p|];
    assert DigitsIn(t, |p|, |t|);
  }

  lemma AppendParts(a: string, b: string)
    ensures (a + b)[..|a|] == a && (a + b)[|a|..] == b
  {
  }

  /** Digits appended after `a` are digits at their new positions. */
  lemma DigitsAfter(a: string, b: string)
    requires AllDigits(b)
    ensures DigitsIn(a + b, |a|, |a + b|)
  {
    forall k | |a| <= k < |a + b|
      ensures IsDigit((a + b)[k])
    {
      assert (a + b)[k] == b[k - |a|];
    }
  }

  /** Appending text keeps the digits already there. */
  lemma DigitsBefore(a: string, b: string, lo: nat, hi: nat)
    requires lo <= hi <= |a| && DigitsIn(a, lo, hi)
    ensures DigitsIn(a + b, lo, hi)
  {
    forall k | lo <= k < hi
      ensures IsDigit((a + b)[k])
    {
      assert (a + b)[k] == a[k];
    }
  }

  /** Digits, a dot and at least one digit: an unsigned number whose first dot is that one. */
  lemma DottedUnsigned(s: string, lo: nat, m: nat, hi: nat)
    requires lo <= m < hi - 1 && hi <= |s| && s[m] == '.'
    requires DigitsIn(s, lo, m) && DigitsIn(s, m + 1, hi)
    ensures UnsignedIn(s, lo, hi) && IndexOf(s, lo, hi, '.') == m
  {
  }

  lemma FractionDigits(p: string, w: string, f: string, t: string)
    requires t == p + w + "." + f && AllDigits(w) && AllDigits(f)
    ensures DigitsIn(t, |p|, |p| + |w|) && DigitsIn(t, |p| + |w| + 1, |t|)
  {
    DigitsAfter(p, w);
    DigitsBefore(p + w, ".", |p|, |p| + |w|);
    DigitsBefore(p + w + ".", f, |p|, |p| + |w|);
    DigitsAfter(p + w + ".", f);
  }

  lemma FractionParts(p: string, w: string, f: string, t: string)
    requires t == p + w + "." + f
    ensures t[|p| + |w|] == '.'
    ensures t[|p|..|p| + |w|] == w && t[|p| + |w| + 1..] == f
  {
    AppendParts(p + w + ".", f);
    AppendParts(p + w, ".");
    AppendParts(p, w);
    assert t[|p|..|p| + |w|] == (p + w)[|p|..];
  }

  /** After a prefix `p`, the digits `w`, a dot and the digits `f` form an unsigned number whose first dot ends `w`. */
  lemma FractionShape(p: string, w: string, f: string, t: string)
    requires t == p + w + "." + f && AllDigits(w) && AllDigits(f) && f != []
    ensures UnsignedIn(t, |p|, |t|) && IndexOf(t, |p|, |t|, '.') == |p| + |w|
    ensures t[|p|..|p| + |w|] == w && t[|p| + |w| + 1..] == f
  {
    FractionDigits(p, w, f, t);
    FractionParts(p, w, f, t);
    DottedUnsigned(t, |p|, |p| + |w|, |t|);
  }

  lemma WholeRead(sign: Sign, p: string, w: string, t: string)
    requires t == p + w && AllDigits(w) && w != []
    ensures UnsignedIn(t, |p|, |t|) && ParseUnsignedAt(sign, t, |p|, |t|) == Decimal(sign, w, "")
  {
    WholeShape(p, w, t);
  }

  lemma FractionRead(sign: Sign, p: string, w: string, f: string, t: string)
    requires t == p + w + "." + f && AllDigits(w) && AllDigits(f) && f != []
    ensures UnsignedIn(t, |p|, |t|) && ParseUnsignedAt(sign, t, |p|, |t|) == Decimal(sign, w, f)
  {
    FractionShape(p, w, f, t);
  }

  /** Past its sign, the text of a well-formed decimal is an unsigned number that reads back as the decimal. */
  lemma UnsignedRead(d: Decimal)
    requires WellFormed(d)
    ensures UnsignedIn(Format(d), |SignText(d.sign)|, |Format(d)|)
    ensures ParseUnsignedAt(d.sign, Format(d), |SignText(d.sign)|, |Format(d)|) == d
  {
    var p := SignText(d.sign);
    if d.fraction == [] {
      WholeRead(d.sign, p, d.whole, Format(d));
    } else {
      assert Format(d) == p + d.whole + "." + d.fraction;
      FractionRead(d.sign, p, d.whole, d.fraction, Format(d));
    }
  }

  /** Formatting a well-formed decimal gives a number token that parses back to it. */
  lemma FormatParse(d: Decimal)
    requires WellFormed(d)
    ensures IsNumber(Format(d)) && Parse(Format(d)) == d
  {
    var t := Format(d);
    var lo := |SignText(d.sign)|;
    UnsignedRead(d);
    UnsignedChars(t, lo, |t|);
    if d.sign == NoSign {
      assert Parse(t) == ParseUnsignedAt(NoSign, t, 0, |t|);
    } else {
      assert t[0] == SignText(d.sign)[0];
      assert Parse(t) == ParseUnsignedAt(d.sign, t, 1, |t|);
    }
  }



  function DigitValue(c: char): nat {
    if IsDigit(c) then (c as int) - ('0' as int) else 0
  }

  /** The value of a string of decimal digits. */
  function DigitsValue(ds: string): nat {
    if ds == [] then 0 else 10 * DigitsValue(ds[..|ds| - 1]) + DigitValue(ds[|ds| - 1])
  }

  function Pow10(n: nat): (r: nat)
    ensures r >= 1
  {
    if n == 0 then 1 else 10 * Pow10(n - 1)
  }

  /** The exact value of a decimal; Python's float() rounds this to the nearest binary64. */
  function Value(d: Decimal): real {
    var magnitude := DigitsValue(d.whole) as real + DigitsValue(d.fraction) as real / Pow10(|d.fraction|) as real;
    if d.sign == Minus then -magnitude else magnitude
  }

  // ---------------------------------------------------------------------
  // Python's int(): an optional sign, then digits with single underscores between them.

  /** `[0-9](_?[0-9])*`. */
  predicate DigitGroups(u: string)
    decreases |u|
  {
    |u| > 0 && IsDigit(u[0]) &&
    (|u| == 1 || if u[1] == '_' then DigitGroups(u[2..]) else DigitGroups(u[1..]))
  }

  /** The text Python's int() accepts (ASCII digits, no surrounding whitespace). */
  predicate IsIntText(t: string) {
    DigitGroups(t) || (|t| > 0 && IsSign(t[0]) && DigitGroups(t[1..]))
  }

  /** What Python's int() returns for text it accepts. */
  function IntValue(t: string): int {
    var body := if |t| > 0 && IsSign(t[0]) then t[1..] else t;
    var magnitude: int := DigitsValue(RemoveChar(body, '_'));
    if |t| > 0 && t[0] == '-' then -magnitude else magnitude
  }

  /** Python's str() of a natural number. */
  function NatText(n: nat): (r: string)
    ensures |r| > 0 && AllDigits(r)
  {
    var last := ['0' + (n % 10) as char];
    if n < 10 then last else NatText(n / 10) + last
  }

  /** Python's str() of an int. */
  function IntText(n: int): string {
    if n < 0 then "-" + NatText(-n) else NatText(n)
  }

  lemma AllDigitsGroups(u: string)
    requires |u| > 0 && AllDigits(u)
    ensures DigitGroups(u)
    decreases |u|
  {
    if |u| > 1 {
      AllDigitsGroups(u[1..]);
    }
  }

  lemma {:induction false} NatTextValue(n: nat)
    ensures DigitsValue(NatText(n)) == n
  {
    var r := NatText(n);
    if n >= 10 {
      NatTextValue(n / 10);
      assert r[..|r| - 1] == NatText(n / 10);
    }
  }

  lemma NatTextReads(n: nat)
    ensures DigitGroups(NatText(n)) && !IsSign(NatText(n)[0])
    ensures DigitsValue(RemoveChar(NatText(n), '_')) == n
  {
    var digits := NatText(n);
    AllDigitsGroups(digits);
    NatTextValue(n);
    assert forall i :: 0 <= i < |digits| ==> digits[i] != '_';
    assert RemoveChar(digits, '_') == digits;
  }

  lemma NegativeIntText(m: nat)
    requires m > 0
    ensures IsIntText("-" + NatText(m)) && IntValue("-" + NatText(m)) == -(m as int)
  {
    var digits := NatText(m);
    var t := "-" + digits;
    NatTextReads(m);
    assert t[0] == '-' && t[1..] == digits;
  }

  /** int(str(n)) == n: Python's int() reads back every integer it prints. */
  lemma IntTextRoundTrip(n: int)
    ensures IsIntText(IntText(n)) && IntValue(IntText(n)) == n
  {
    if n < 0 {
      NegativeIntText(-n);
    } else {
      var t := NatText(n);
      NatTextReads(n);
      assert !IsSign(t[0]);
      assert IntValue(t) == DigitsValue(RemoveChar(t, '_'));
    }
  }

  /** The decimal `str(n)` reads as. */
  function IntDecimal(n: int): Decimal {
    if n < 0 then Decimal(Minus, NatText(-n), "") else Decimal(NoSign, NatText(n), "")
  }

  lemma IntDecimalFormat(n: int)
    ensures WellFormed(IntDecimal(n)) && Format(IntDecimal(n)) == IntText(n)
  {
  }

  lemma IntDecimalValue(n: int)
    ensures Value(IntDecimal(n)) == n as real
  {
    var m: nat := if n < 0 then -n else n;
    NatTextValue(m);
    assert DigitsValue(IntDecimal(n).fraction) == 0 && Pow10(0) == 1;
  }

  /** `float(str(n)) == n`: a printed integer is a number token, and its decimal has exactly the integer's value. */
  lemma FloatOfIntText(n: int)
    ensures IsNumber(IntText(n)) && Value(Parse(IntText(n))) == n as real
  {
    IntDecimalFormat(n);
    FormatParse(IntDecimal(n));
    IntDecimalValue(n);
  }

  /** The values of a few tokens as the scraper meets them: a latitude, a longitude and a rating. */
  lemma ValueExamples()
    ensures Value(Decimal(Minus, "6", "2")) == -6.2
    ensures Value(Decimal(NoSign, "106", "8")) == 106.8
    ensures Value(Decimal(NoSign, "4", "5")) == 4.5
  {
    assert "6"[..0] == "" && "2"[..0] == "" && "4"[..0] == "" && "5"[..0] == "" && "8"[..0] == "";
    assert "106"[..2] == "10" && "10"[..1] == "1" && "1"[..0] == "";
  }
}
