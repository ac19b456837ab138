/**
 * The pieces of Python's str behaviour the scraper relies on: which characters
 * count as whitespace, `str.split()` with no argument, `str.strip()` and
 * single-character `str.replace`.
 */
module Text {

  /** Python's `str.isspace()`: the characters `split()` and `strip()` treat as whitespace. */
  predicate IsSpace(c: char) {
    c == ' ' || ('\t' <= c <= '\r') || ('\U{1C}' <= c <= '\U{1F}') ||
    c == '\U{85}' || c == '\U{A0}' || c == '\U{1680}' ||
    ('\U{2000}' <= c <= '\U{200A}') || c == '\U{2028}' || c == '\U{2029}' ||
    c == '\U{202F}' || c == '\U{205F}' || c == '\U{3000}'
  }

  predicate IsDigit(c: char) {
    '0' <= c <= '9'
  }

  /** Every character is whitespace: `s.strip()` is the empty string. */
  predicate Blank(s: string) {
    forall i :: 0 <= i < |s| ==> IsSpace(s[i])
  }

  /** A word of `split()`: non-empty and free of whitespace. */
  predicate IsWord(w: string) {
    |w| > 0 && forall i :: 0 <= i < |w| ==> !IsSpace(w[i])
  }

  /** Index of the first non-whitespace character at or after `i`, or `|s|`. */
  function SkipSpace(s: string, i: nat): (j: nat)
    requires i <= |s|
    ensures i <= j <= |s|
    ensures forall k :: i <= k < j ==> IsSpace(s[k])
    ensures j < |s| ==> !IsSpace(s[j])
    decreases |s| - i
  {
    if i == |s| || !IsSpace(s[i]) then i else SkipSpace(s, i + 1)
  }

  /** Index of the first whitespace character at or after `i`, or `|s|`. */
  function SkipWord(s: string, i: nat): (j: nat)
    requires i <= |s|
    ensures i <= j <= |s|
    ensures forall k :: i <= k < j ==> !IsSpace(s[k])
    ensures j < |s| ==> IsSpace(s[j])
    decreases |s| - i
  {
    if i == |s| || IsSpace(s[i]) then i else SkipWord(s, i + 1)
  }

  /** Python's `s[i:].split()`: the maximal runs of non-whitespace characters, in order. */
  function WordsFrom(s: string, i: nat): seq<string>
    requires i <= |s|
    decreases |s| - i
  {
    var start := SkipSpace(s, i);
    if start == |s| then []
    else
      var end := SkipWord(s, start);
      [s[start..end]] + WordsFrom(s, end)
  }

  /** Python's `s.split()`. */
  function Words(s: string): seq<string> {
    WordsFrom(s, 0)
  }

  lemma {:induction false} WordsFromAreWords(s: string, i: nat)
    requires i <= |s|
    ensures forall k :: 0 <= k < |WordsFrom(s, i)| ==> IsWord(WordsFrom(s, i)[k])
    decreases |s| - i
  {
    var start := SkipSpace(s, i);
    if start < |s| {
      var end := SkipWord(s, start);
      WordsFromAreWords(s, end);
    }
  }

  /** `split()` yields only non-empty, whitespace-free words. */
  lemma WordsAreWords(s: string)
    ensures forall k :: 0 <= k < |Words(s)| ==> IsWord(Words(s)[k])
  {
    WordsFromAreWords(s, 0);
  }

  /**
   * `split()` yields no word exactly when `strip()` yields the empty string;
   * otherwise the first word starts at the first non-whitespace character and
   * runs to the next whitespace.
   */
  lemma WordsEmptyIffBlank(s: string)
    ensures Words(s) == [] <==> Blank(s)
    ensures Words(s) != [] ==> exists i :: 0 <= i < |s| && !IsSpace(s[i]) && Blank(s[..i]) &&
                                 Words(s)[0] == s[i..SkipWord(s, i)]
  {
    var start := SkipSpace(s, 0);
    if start < |s| {
      assert Blank(s[..start]);
      assert !Blank(s) by { assert !IsSpace(s[start]); }
    }
  }

  /** Index just past the last non-whitespace character before `j`, or 0. */
  function TrimEnd(s: string, j: nat): (k: nat)
    requires j <= |s|
    ensures k <= j
    ensures forall x :: k <= x < j ==> IsSpace(s[x])
    ensures k > 0 ==> !IsSpace(s[k - 1])
  {
    if j == 0 || !IsSpace(s[j - 1]) then j else TrimEnd(s, j - 1)
  }

  /** Python's `s.strip()`: leading and trailing whitespace removed. */
  function Strip(s: string): (r: string)
    ensures r == [] <==> Blank(s)
    ensures r != [] ==> !IsSpace(r[0]) && !IsSpace(r[|r| - 1])
    ensures exists i :: 0 <= i <= |s| - |r| && r == s[i..i + |r|] && Blank(s[..i]) && Blank(s[i + |r|..])
  {
    var i := SkipSpace(s, 0);
    var j := TrimEnd(s, |s|);
    if j <= i then
      assert Blank(s[..|s|]) by {
        forall x | 0 <= x < |s| ensures IsSpace(s[x]) {
          if x < i {
            assert IsSpace(s[x]);
          }
        }
      }
      assert s[..|s|] == s && s[|s|..] == [];
      []
    else
      assert Blank(s[..i]) by {
        forall x | 0 <= x < i ensures IsSpace(s[..i][x]) { assert s[..i][x] == s[x]; }
      }
      assert Blank(s[j..]) by {
        forall x | 0 <= x < |s| - j ensures IsSpace(s[j..][x]) { assert s[j..][x] == s[j + x]; }
      }
      assert s[i..j] == s[i..i + (j - i)];
      s[i..j]
  }

  /** `strip()` leaves text with no whitespace, such as a word of `split()`, unchanged. */
  lemma StripWord(s: string)
    requires forall i :: 0 <= i < |s| ==> !IsSpace(s[i])
    ensures Strip(s) == s
  {
    var r := Strip(s);
    var i :| 0 <= i <= |s| - |r| && r == s[i..i + |r|] && Blank(s[..i]) && Blank(s[i + |r|..]);
  }

  /** Python's `s.replace(a, b)` for one-character `a` and `b`. */
  function ReplaceChar(s: string, a: char, b: char): (r: string)
    ensures |r| == |s|
    ensures forall i :: 0 <= i < |s| ==> r[i] == if s[i] == a then b else s[i]
  {
    if s == [] then [] else [if s[0] == a then b else s[0]] + ReplaceChar(s[1..], a, b)
  }

  /** Python's `s.replace(a, '')`: every occurrence of `a` removed, the rest kept in order. */
  function RemoveChar(s: string, a: char): (r: string)
    ensures a !in r
    ensures |r| <= |s|
    ensures a !in s ==> r == s
  {
    if s == [] then []
    else if s[0] == a then RemoveChar(s[1..], a)
    else [s[0]] + RemoveChar(s[1..], a)
  }

  /** `replace(a, '')` works piece by piece: the result for `s + t` is the result for `s`, then for `t`. */
  lemma {:induction false} RemoveCharAppend(s: string, t: string, a: char)
    ensures RemoveChar(s + t, a) == RemoveChar(s, a) + RemoveChar(t, a)
    decreases |s|
  {
    if s == [] {
      assert s + t == t;
    } else {
      assert (s + t)[0] == s[0] && (s + t)[1..] == s[1..] + t;
      RemoveCharAppend(s[1..], t, a);
    }
  }

  /** On one character `replace(a, '')` drops an `a` and keeps anything else; with RemoveCharAppend this fixes the result, order included. */
  lemma RemoveCharSingle(c: char, a: char)
    ensures RemoveChar([c], a) == if c == a then [] else [c]
  {
  }

  /** `replace(a, '')` drops every `a` and keeps every other character, as many times as it occurs. */
  lemma {:induction false} RemoveCharCounts(s: string, a: char)
    ensures multiset(RemoveChar(s, a)) == multiset(s)[a := 0]
  {
    if s != [] {
      assert s == [s[0]] + s[1..];
      RemoveCharCounts(s[1..], a);
    }
  }
}
