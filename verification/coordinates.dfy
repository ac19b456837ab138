/**
 * `extract_coordinates_from_url`: the latitude and longitude of a map URL,
 * read from a `!3d<lat>!4d<lon>` segment or, failing that, from an
 * `@<lat>,<lon>` segment. Each `re.search` is modelled by a hand-written
 * scanner that tries every start position from the left.
 */
module Coordinates {
  import opened Wrappers
  import opened Numbers

  /** A pattern `<open><number><sep><number>` with both numbers captured. */
  datatype Pattern = Pattern(open: string, sep: string)

  /** `!3d([-+]?[0-9]*\.?[0-9]+)!4d([-+]?[0-9]*\.?[0-9]+)`: the place embedding. */
  const Place := Pattern("!3d", "!4d")

  /** `@([-+]?[0-9]*\.?[0-9]+),([-+]?[0-9]*\.?[0-9]+)`: the viewport centre. */
  const Viewport := Pattern("@", ",")

  /** The opening text is non-empty and the separator cannot be mistaken for part of a number. */
  predicate Delimited(p: Pattern) {
    |p.open| > 0 && |p.sep| > 0 && !IsNumberChar(p.sep[0])
  }

  /**
   * Where a match lies: the opening text starts at `start`; the first number
   * is `url[latFrom..latTo]`, the separator follows it, and the second number
   * is `url[lonFrom..lonTo]`.
   */
  datatype Span = Span(start: nat, latFrom: nat, latTo: nat, lonFrom: nat, lonTo: nat)

  /** `url` holds the text `w` at position `i`. */
  predicate TextAt(url: string, i: nat, w: string) {
    i + |w| <= |url| && forall k :: 0 <= k < |w| ==> url[i + k] == w[k]
  }

  /** The positions of a span are in order within `url`. */
  predicate Ordered(url: string, s: Span) {
    s.start <= s.latFrom <= s.latTo <= s.lonFrom <= s.lonTo <= |url|
  }

  /** `url` holds a match of `p` at `s`. */
  ghost predicate Matches(url: string, p: Pattern, s: Span) {
    Ordered(url, s) &&
    s.latFrom == s.start + |p.open| && TextAt(url, s.start, p.open) &&
    NumberIn(url, s.latFrom, s.latTo) &&
    s.lonFrom == s.latTo + |p.sep| && TextAt(url, s.latTo, p.sep) &&
    NumberIn(url, s.lonFrom, s.lonTo)
  }

  /** The match `re.search` reports: the leftmost start and, there, the longest second number. */
  ghost predicate IsLeftmostMatch(url: string, p: Pattern, s: Span) {
    Matches(url, p, s) &&
    forall t :: Matches(url, p, t) ==>
      s.start < t.start || (s.start == t.start && t.latTo == s.latTo && t.lonTo <= s.lonTo)
  }

  /** Tries the pattern at position `i` only, greedily. */
  function MatchAt(url: string, p: Pattern, i: nat): (r: Option<Span>)
    requires i <= |url|
    ensures r.Some? ==> r.value.start == i && Ordered(url, r.value)
  {
    var a := i + |p.open|;
    if TextAt(url, i, p.open) then
      match ScanNumber(url, a)
      case None => None
      case Some(mid) =>
        var b := mid + |p.sep|;
        if TextAt(url, mid, p.sep) then
          match ScanNumber(url, b)
          case None => None
          case Some(end) => Some(Span(i, a, mid, b, end))
        else None
    else None
  }

  /** `re.search` from position `from`: the first position where the pattern matches. */
  function Search(url: string, p: Pattern, from: nat): (r: Option<Span>)
    requires from <= |url|
    ensures r.Some? ==> from <= r.value.start && Ordered(url, r.value)
    decreases |url| - from
  {
    match MatchAt(url, p, from)
    case Some(s) => Some(s)
    case None => if from == |url| then None else Search(url, p, from + 1)
  }

  /** A match the scanner reports at `i` is a match of the pattern. */
  lemma MatchAtSound(url: string, p: Pattern, i: nat)
    requires i <= |url| && MatchAt(url, p, i).Some?
    ensures Matches(url, p, MatchAt(url, p, i).value)
  {
    var s := MatchAt(url, p, i).value;
    assert ScanNumber(url, s.latFrom) == Some(s.latTo);
    ScanNumberLongest(url, s.latFrom);
    assert ScanNumber(url, s.lonFrom) == Some(s.lonTo);
    ScanNumberLongest(url, s.lonFrom);
  }

  /** A number token ending at `mid` and followed by a delimiter is the longest number token there. */
  lemma FirstNumberEnd(url: string, p: Pattern, a: nat, mid: nat)
    requires Delimited(p) && a <= mid <= |url| && NumberIn(url, a, mid) && TextAt(url, mid, p.sep)
    ensures ScanNumber(url, a) == Some(mid)
  {
    ScanNumberLongest(url, a);
    var end := ScanNumber(url, a).value;
    NumberChars(url, a, end);
    assert url[mid + 0] == p.sep[0];
  }

  /** Every match at `i` is found there, with the same first number and a second number no longer. */
  lemma MatchAtComplete(url: string, p: Pattern, t: Span)
    requires Delimited(p) && Matches(url, p, t)
    ensures MatchAt(url, p, t.start).Some?
    ensures t.latTo == MatchAt(url, p, t.start).value.latTo && t.lonTo <= MatchAt(url, p, t.start).value.lonTo
  {
    FirstNumberEnd(url, p, t.latFrom, t.latTo);
    ScanNumberLongest(url, t.lonFrom);
    assert MatchAt(url, p, t.start) == Some(Span(t.start, t.latFrom, t.latTo, t.lonFrom, ScanNumber(url, t.lonFrom).value));
  }

  /** A match found at `i` is, among all matches at `i`, the one with the longest second number. */
  lemma MatchAtLongest(url: string, p: Pattern, i: nat)
    requires Delimited(p) && i <= |url| && MatchAt(url, p, i).Some?
    ensures Matches(url, p, MatchAt(url, p, i).value)
    ensures forall t :: Matches(url, p, t) && t.start == i ==>
              t.latTo == MatchAt(url, p, i).value.latTo && t.lonTo <= MatchAt(url, p, i).value.lonTo
  {
    MatchAtSound(url, p, i);
    forall t | Matches(url, p, t) && t.start == i
      ensures t.latTo == MatchAt(url, p, i).value.latTo && t.lonTo <= MatchAt(url, p, i).value.lonTo
    {
      MatchAtComplete(url, p, t);
    }
  }

  /** When the scanner finds nothing at `i`, no match starts there. */
  lemma NoMatchAt(url: string, p: Pattern, i: nat)
    requires Delimited(p) && i <= |url| && MatchAt(url, p, i).None?
    ensures forall t :: Matches(url, p, t) ==> t.start != i
  {
    forall t | Matches(url, p, t) ensures t.start != i {
      if t.start == i { MatchAtComplete(url, p, t); }
    }
  }

  /** A match `Search` returns from `from` is the leftmost match at or after `from`. */
  lemma {:induction false} SearchFound(url: string, p: Pattern, from: nat)
    requires Delimited(p) && from <= |url| && Search(url, p, from).Some?
    ensures Matches(url, p, Search(url, p, from).value)
    ensures forall t :: Matches(url, p, t) && from <= t.start ==>
              var s := Search(url, p, from).value;
              s.start < t.start || (s.start == t.start && t.latTo == s.latTo && t.lonTo <= s.lonTo)
    decreases |url| - from
  {
    if MatchAt(url, p, from).Some? {
      MatchAtLongest(url, p, from);
    } else {
      NoMatchAt(url, p, from);
      SearchFound(url, p, from + 1);
    }
  }

  /** `Search` from `from` finds nothing only when no match starts at or after `from`. */
  lemma {:induction false} SearchNotFound(url: string, p: Pattern, from: nat)
    requires Delimited(p) && from <= |url| && Search(url, p, from).None?
    ensures forall t :: Matches(url, p, t) ==> t.start < from
    decreases |url| - from
  {
    NoMatchAt(url, p, from);
    if from < |url| {
      SearchNotFound(url, p, from + 1);
    }
  }

  /** The two numbers of a match, as decimals: `float(match.group(1))` and `float(match.group(2))`. */
  function Captured(url: string, s: Span): (Option<Decimal>, Option<Decimal>)
    requires Ordered(url, s)
  {
    (Some(ParseAt(url, s.latFrom, s.latTo)), Some(ParseAt(url, s.lonFrom, s.lonTo)))
  }

  /**
   * `extract_coordinates_from_url`: the `!3d…!4d…` numbers when that pattern
   * occurs, else the `@…,…` numbers, else (None, None). The source's `except`
   * branch has no counterpart: on a matched token `float()` cannot fail.
   */
  function ExtractCoordinates(url: string): (r: (Option<Decimal>, Option<Decimal>))
    ensures r.0.Some? <==> r.1.Some?
  {
    match Search(url, Place, 0)
    case Some(s) => Captured(url, s)
    case None =>
      match Search(url, Viewport, 0)
      case Some(s) => Captured(url, s)
      case None => (None, None)
  }

  lemma PatternsDelimited()
    ensures Delimited(Place) && Delimited(Viewport)
  {
    assert Place.sep[0] == '!';
    assert Viewport.sep[0] == ',';
  }

  /** `re.search` from the start: the leftmost match, or None exactly when the pattern does not occur. */
  lemma SearchIsLeftmost(url: string, p: Pattern)
    requires Delimited(p)
    ensures Search(url, p, 0).Some? ==> IsLeftmostMatch(url, p, Search(url, p, 0).value)
    ensures Search(url, p, 0).None? <==> forall s :: !Matches(url, p, s)
  {
    if Search(url, p, 0).Some? {
      SearchFound(url, p, 0);
    } else {
      SearchNotFound(url, p, 0);
    }
  }

  /** A pattern has at most one leftmost match. */
  lemma LeftmostMatchUnique(url: string, p: Pattern, s: Span, t: Span)
    requires IsLeftmostMatch(url, p, s) && IsLeftmostMatch(url, p, t)
    ensures s == t
  {
  }

  /** Whatever its leftmost match, `re.search` reports exactly it. */
  lemma SearchReports(url: string, p: Pattern, s: Span)
    requires Delimited(p) && IsLeftmostMatch(url, p, s)
    ensures Search(url, p, 0) == Some(s)
  {
    SearchIsLeftmost(url, p);
    LeftmostMatchUnique(url, p, s, Search(url, p, 0).value);
  }

  /** A `!3d…!4d…` match wins, wherever an `@…,…` match lies. */
  lemma ExtractWhenPlace(url: string, s: Span)
    requires IsLeftmostMatch(url, Place, s)
    ensures ExtractCoordinates(url) == Captured(url, s)
  {
    PatternsDelimited();
    SearchReports(url, Place, s);
  }

  /** Without a `!3d…!4d…` match, the `@…,…` match is read. */
  lemma ExtractWhenViewport(url: string, s: Span)
    requires (forall t :: !Matches(url, Place, t)) && IsLeftmostMatch(url, Viewport, s)
    ensures ExtractCoordinates(url) == Captured(url, s)
  {
    PatternsDelimited();
    SearchIsLeftmost(url, Place);
    SearchReports(url, Viewport, s);
  }

  /** The result is (None, None) exactly when neither pattern occurs. */
  lemma ExtractNone(url: string)
    ensures ExtractCoordinates(url) == (None, None) <==>
              (forall s :: !Matches(url, Place, s)) && (forall s :: !Matches(url, Viewport, s))
  {
    PatternsDelimited();
    SearchIsLeftmost(url, Place);
    SearchIsLeftmost(url, Viewport);
  }

  /** The decimals of a match are well formed and format back to the matched number texts. */
  lemma CapturedFormat(url: string, s: Span)
    requires Ordered(url, s) && NumberIn(url, s.latFrom, s.latTo) && NumberIn(url, s.lonFrom, s.lonTo)
    ensures WellFormed(Captured(url, s).0.value) && Format(Captured(url, s).0.value) == url[s.latFrom..s.latTo]
    ensures WellFormed(Captured(url, s).1.value) && Format(Captured(url, s).1.value) == url[s.lonFrom..s.lonTo]
  {
    ParseAtFormat(url, s.latFrom, s.latTo);
    ParseAtFormat(url, s.lonFrom, s.lonTo);
  }

  /** Whatever the URL, the two coordinates are well-formed decimals or both absent. */
  lemma ExtractWellFormed(url: string)
    ensures ExtractCoordinates(url).0.Some? ==>
              WellFormed(ExtractCoordinates(url).0.value) && WellFormed(ExtractCoordinates(url).1.value)
  {
    PatternsDelimited();
    match Search(url, Place, 0)
    case Some(s) =>
      SearchIsLeftmost(url, Place);
      CapturedFormat(url, s);
    case None =>
      match Search(url, Viewport, 0)
      case Some(s) =>
        SearchIsLeftmost(url, Viewport);
        CapturedFormat(url, s);
      case None =>
  }
}
