# Google Maps business scraper — verified model

This project models the core of a small Google Maps scraper and its web
endpoint. `scrape_business_data(search_for, total)` searches Google Maps,
scrolls the results panel until it has `total` place links or the list stops
growing, then clicks each listing and reads the detail pane into a
`Business` record (name, address, website, phone number, review count,
rating, latitude, longitude). `extract_coordinates_from_url` pulls the
coordinates out of the page URL with two regular expressions. The Flask
endpoint `POST /scrape` validates the JSON body, runs the scraper and answers
200 with the records, 400 for bad input or 500 when scraping raises.

The browser is replaced by what it would show. The scroll loop reads a
sequence of *readings*: `readings[n]` is the list of place-link elements on
the page after scroll `n + 1`. The per-listing step reads a `Pane`: the
listing's `aria-label`, the texts of the address, website, phone and
review-count elements, the `aria-label`s of the rating elements, and the page
URL. Clicking is a function `visit` from a listing handle to the pane it
shows, or `None` when the click raises.

Modules:

- `Wrappers` — `Option` and `Result`.
- `Text` — Python's `str.isspace`, `split()`, `strip()`, `replace(',', '')` and `replace(',', '.')`.
- `Numbers` — the number token `[-+]?[0-9]*\.?[0-9]+` matched by the coordinate regexes, its exact decimal reading (`float()` without rounding), and Python's `int()` / `str()` on integers.
- `Coordinates` — `re.search` for the two patterns, leftmost-longest, and `extract_coordinates_from_url`.
- `Listings` — the scroll loop as an imperative method over the readings.
- `Extraction` — field extraction for one listing, the `BusinessList` class and the per-listing loop as a method that appends to it.
- `App` — the `/scrape` endpoint as a function from a JSON body to a response.

Behaviour of the source worth noting, which the model keeps:

- The source scrolls once before its first count (scraper.py:107), so a page already showing `total` links is still scrolled once.
- The review-count and rating reads call the locator directly (scraper.py:160 and 170). Playwright locators are strict, so two matching elements raise and the listing is dropped.
- A JSON `true` passes the `total` check as 1 (app.py:22), because a Python `bool` is an `int`.
- A body that is not a JSON object fails at `data.get` (app.py:16), outside the `try`. Flask then answers with its own error page, not a 400.
- `page.hover` on a place link (scraper.py:104) comes before the scroll loop and raises when the page shows no place link. A search with no results therefore ends in the 500 response, not in an empty list. In the model the loop stops on an empty first reading only if the links vanish after the hover.

## Model

| member | source | states |
|---|---|---|
| Text.Strip | scraper.py:163 | the result is empty exactly when the input is all whitespace; otherwise it starts and ends with a non-space; it is a contiguous piece of the input with only whitespace cut on either side |
| Text.Words | scraper.py:161 | no contract; `split()`: its meaning is stated by WordsAreWords and WordsEmptyIffBlank |
| Text.StripWord | scraper.py:171-173 | a text with no whitespace (a word from `split()`) is unchanged by `strip()` |
| Text.WordsAreWords | scraper.py:161 | every word `split()` returns is non-empty and holds no whitespace |
| Text.WordsEmptyIffBlank | scraper.py:161 | `split()` returns no words exactly when the text is all whitespace, so `split()[0]` raises exactly then |
| Text.RemoveChar | scraper.py:162 | removing commas leaves no comma, never lengthens the text, and leaves a comma-free text unchanged |
| Text.RemoveCharAppend | scraper.py:162 | removing commas from two texts joined is removing them from each and joining the results, so the kept characters stay in order |
| Text.RemoveCharSingle | scraper.py:162 | on a single character, a comma is dropped and anything else is kept |
| Text.RemoveCharCounts | scraper.py:162 | removing commas keeps every other character with its multiplicity and drops every comma |
| Text.ReplaceChar | scraper.py:172 | the decimal comma becomes a dot position by position; length and every other character are unchanged |
| Numbers.ScanNumberLongest | scraper.py:52 | the scanner stops at the end of the longest number token starting at the position, as the greedy regex does, and reports none when no token starts there |
| Numbers.ParseAt | scraper.py:56-57 | no contract; `float()` of a matched group kept as an exact decimal: see ParseAtFormat and FormatParse |
| Numbers.Parse | scraper.py:169-173 | no contract; `float()` of a whole rating token: see ParseFormat and FormatParse |
| Numbers.Value | scraper.py:56-57 | no contract; the exact real value of a decimal, before the rounding listed under Left out: see FloatOfIntText and ValueExamples |
| Numbers.FloatOfIntText | scraper.py:56-57 | `float(str(n)) == n` for every integer: a printed integer is a number token whose decimal has exactly that value |
| Numbers.ValueExamples | scraper.py:56-57 | the tokens `-6.2`, `106.8` and `4.5` have the values -6.2, 106.8 and 4.5 |
| Numbers.NumberTextIffNumber | scraper.py:52 | the executable token test accepts exactly the texts of the grammar `[-+]?[0-9]*\.?[0-9]+` |
| Numbers.ParseAtFormat | scraper.py:56-57 | reading a matched number token gives a well-formed decimal that formats back to exactly that token |
| Numbers.ParseFormat | scraper.py:169-173 | reading a whole number token gives a well-formed decimal that formats back to the token |
| Numbers.FormatParse | scraper.py:56-57 | every well-formed decimal formats to a number token that reads back to the same decimal |
| Numbers.IntTextRoundTrip | scraper.py:159-164 | `int(str(n)) == n` for every integer: the int grammar accepts the printed text and reads its value back |
| Numbers.IsIntText | scraper.py:159-164 | no contract; the ASCII texts `int()` accepts: see IntTextRoundTrip and ReviewCountExample |
| Numbers.IntValue | scraper.py:159-164 | no contract; the value `int()` reads: see IntTextRoundTrip and ReviewCountExample |
| Coordinates.MatchAt | scraper.py:52 | a match attempt at a position reports a span starting there, with its bounds ordered inside the URL |
| Coordinates.MatchAtSound | scraper.py:52 | a span the matcher reports is a match of the pattern: prefix, number, separator, number |
| Coordinates.MatchAtLongest | scraper.py:52 | at its position the matcher's span is the one the greedy regex picks among all matches starting there |
| Coordinates.NoMatchAt | scraper.py:52 | when the matcher finds nothing at a position, no match of the pattern starts there |
| Coordinates.SearchFound | scraper.py:53 | a found span is a match, and no match starting at or after the search start lies further left or, at the same start, is longer |
| Coordinates.Search | scraper.py:53 | a found span starts at or after the search start and lies inside the URL; its meaning is stated by SearchFound, SearchNotFound and SearchIsLeftmost |
| Coordinates.SearchNotFound | scraper.py:53 | when the search from a position finds nothing, every match starts before that position |
| Coordinates.SearchIsLeftmost | scraper.py:53 | `re.search` returns the leftmost match, and returns None exactly when the pattern does not occur |
| Coordinates.LeftmostMatchUnique | scraper.py:53 | the leftmost match is unique |
| Coordinates.SearchReports | scraper.py:62 | whatever the leftmost match, the search reports exactly it |
| Coordinates.ExtractCoordinates | scraper.py:48-75 | latitude and longitude are both present or both absent |
| Coordinates.ExtractWhenPlace | scraper.py:52-58 | a `!3d…!4d…` match decides the coordinates, wherever an `@…,…` match lies |
| Coordinates.ExtractWhenViewport | scraper.py:60-67 | without a `!3d…!4d…` match, the leftmost `@…,…` match decides the coordinates |
| Coordinates.ExtractNone | scraper.py:69-71 | the result is (None, None) exactly when neither pattern occurs |
| Coordinates.PatternsDelimited | scraper.py:52-61 | both patterns' separators start with a character that cannot continue a number, which makes the greedy first number the only choice |
| Coordinates.CapturedFormat | scraper.py:56-66 | each coordinate of a match is a well-formed decimal that formats back to its captured group text |
| Coordinates.Captured | scraper.py:56-57 | no contract; the two groups of a match read by `float()`: see CapturedFormat |
| Coordinates.ExtractWellFormed | scraper.py:48-75 | any coordinates returned are well-formed decimals |
| Listings.Prefix | scraper.py:111 | Python's `[:n]`: a prefix of the list, of length `n` when `0 <= n <= len`, the whole list when `n >= len`, and `len + n` elements (at least 0) when `n` is negative |
| Listings.Parents | scraper.py:112 | one parent handle per link, in order |
| Listings.Anchors | scraper.py:117 | one handle per link, the links themselves, in order |
| Listings.StopHandles | scraper.py:110-119 | with enough links, the parents of the first `total` links, in order (exactly `total` of them when `total >= 0`); otherwise every link of the reading as it is, in order |
| Listings.CollectListings | scraper.py:105-122 | the loop scrolls at least once, continues exactly while the count is below `total` and changed, stops at the first reading that reaches `total` (the parents of the first `total` links) or repeats the previous count (every link), and reports a still-growing list only when the readings run out first |
| Listings.ContinuingGrows | scraper.py:116-122 | while the loop continues on a page that never loses links, scroll `n + 1` has seen at least `n + 1` links |
| Listings.StopsWithinTotal | scraper.py:106-122 | on a page that never loses links the loop stops within `max(total, 1)` scrolls |
| Extraction.NameOf | scraper.py:142-145 | the name is the `aria-label` whether empty or not; a missing label raises |
| Extraction.FirstText | scraper.py:146-157 | no contract; the text of the first matching element, or "": see TextFieldsIndependent |
| Extraction.ReviewsCountOf | scraper.py:158-166 | no contract; see MissingReviewsBlank, BadReviewCountDrops, ExtractSucceedsIff and ReviewCountExample |
| Extraction.ReviewsAverageOf | scraper.py:168-175 | no contract; see MissingReviewsBlank, RatingReadsToken and ExtractSucceedsIff |
| Extraction.ExtractBusiness | scraper.py:128-180 | no contract; the body of the `try` for one listing: see ExtractSucceedsIff, TextFieldsIndependent, MissingReviewsBlank, BadReviewCountDrops and RatingReadsToken |
| Extraction.Harvest | scraper.py:127-183 | no contract; the records the loop appends: see ScrapeListings, HarvestBound, HarvestAppend, FailedListingDropped, SucceededListingKept, HarvestAllSucceed and HarvestFromListings |
| Extraction.FirstWord | scraper.py:161 | `split()[0]` fails exactly on an all-whitespace text and otherwise gives the first word: the run of non-space characters that starts after the leading whitespace |
| Extraction.BusinessList.constructor | scraper.py:24-27 | a new list holds no businesses |
| Extraction.BusinessList.Append | scraper.py:180 | appending adds the record at the end and changes nothing else |
| Extraction.ScrapeListings | scraper.py:127-183 | the loop leaves in the list exactly the harvest of the handles: the records of the succeeding listings, in listing order |
| Extraction.ScrapeBusinessData | scraper.py:77-187 | the result is the harvest of the handles of the reading at which the scroll loop stopped, after every earlier reading continued, and, when `total >= 0`, never holds more than `total` records |
| Extraction.HarvestBound | scraper.py:127-183 | never more records than listings |
| Extraction.HarvestAppend | scraper.py:127-183 | the harvest of two runs of listings is the two harvests one after the other |
| Extraction.FailedListingDropped | scraper.py:182-183 | a listing whose step raises is skipped without disturbing the records of the listings around it |
| Extraction.SucceededListingKept | scraper.py:180 | a listing whose step succeeds contributes exactly its record, between those of its neighbours |
| Extraction.HarvestAllSucceed | scraper.py:127-183 | when every step succeeds there is one record per listing, record `i` from listing `i` |
| Extraction.HarvestFromListings | scraper.py:127-183 | every record in the list is the record of some listing whose step succeeded |
| Extraction.TextFieldsIndependent | scraper.py:146-157 | address, website and phone are read on their own: changing those elements changes only those fields and never whether the listing is kept |
| Extraction.ExtractSucceedsIff | scraper.py:128-183 | a listing is kept exactly when its click works, its label is present and both review fields read |
| Extraction.MissingReviewsBlank | scraper.py:165-175 | with no review-count or rating element the field is the empty-string marker; the name is the label |
| Extraction.BadReviewCountDrops | scraper.py:158-164 | a review count whose text has no word or whose token is not an int drops the listing |
| Extraction.RatingReadsToken | scraper.py:168-173 | a rating read comes from exactly one present, non-blank label, and is the well-formed decimal that formats back to its first word with the comma made a dot |
| Extraction.ReviewCountExample | scraper.py:158-164 | `"1,234 reviews"` reads as the count 1234 |
| App.Get | app.py:16-17 | no contract; `data.get(key)`: see MissingKeyIsNull |
| App.MissingKeyIsNull | app.py:16-17 | a missing key and an explicit null get the same validation answer |
| App.Validate | app.py:16-23 | no contract; see SearchForCheckedFirst, TotalChecked, ValidInputsPassUnchanged and MissingKeyIsNull |
| App.AsDict | app.py:30 | no contract; `asdict` of one record: see AsDictShape |
| App.Scrape | app.py:12-35 | no contract; the endpoint: see ScrapeResponses, SuccessListsRecords and NonObjectUnhandled |
| App.IntOf | app.py:22 | `isinstance(total, int)` holds exactly for integers and booleans |
| App.AsDicts | app.py:30 | one dictionary per record, in the list's order |
| App.SearchForCheckedFirst | app.py:19-20 | a bad `search_for` gets its own message whatever `total` is |
| App.TotalChecked | app.py:22-23 | with a good `search_for`, a bad `total` gets the `total` message |
| App.ValidInputsPassUnchanged | app.py:19-27 | validation passes exactly when both inputs are good, and hands over `search_for` unstripped and the value of `total`, which is 1 for a JSON `true` |
| App.ScrapeResponses | app.py:19-35 | a 400 comes back exactly when validation fails; otherwise the scraper's return gives 200 and its exception gives 500 with its details |
| App.SuccessListsRecords | app.py:26-32 | on success the response lists one dictionary per record, in the scraper's order |
| App.NonObjectUnhandled | app.py:13-17 | a body that is not a JSON object fails outside the `try`, and only such a body does |
| App.AsDictShape | app.py:30 | every record has the eight field names; a missing review count or rating is the empty string and a missing latitude or longitude is null |
| App.SearchForExamples | app.py:19 | `"   "` is rejected and `" cafe "` passes with its spaces kept |

## Left out

- Browser automation is a parameter, not modelled: launching Chromium, `goto`, the zoom-out clicks and their `except`, filling the search box, `hover`, the mouse wheel and every `wait_for_timeout` (scraper.py:81-104, 107-108, 131). The readings and panes stand for what the page would show.
- Timeouts and Playwright's own exceptions outside the per-listing `try` (a missing search box, a failing `hover`) are not modelled; at the endpoint they become the scraper's `Raised` outcome, which is a parameter.
- `BusinessList.dataframe`, `save_to_excel` and `save_to_csv` (scraper.py:30-46) are file output through pandas and are left out.
- Logging and `print` are left out; they do not change any result.
- Flask routing, `render_template` for `/`, `request.get_json` content-type handling and the JSON serialisation of `jsonify` are left out. The body arrives as an already-parsed JSON value.
- The front-end script under static/ is not part of this model.
- Numbers.Value: gives the exact decimal value of a coordinate or rating. Python's `float()` rounds it to the nearest binary64, and that rounding is not modelled.
- Extraction.ReviewsAverageOf: accepts only the token grammar `[-+]?[0-9]*\.?[0-9]+`. Python's `float()` also accepts `4.`, exponents, `inf`, `nan`, underscores and non-ASCII decimal digits, which the model treats as a `float()` failure, so the listing is dropped. A token whose value lies beyond the binary64 range reads in Python as `inf` rather than failing; the model keeps its exact value.
- Numbers.IsIntText: accepts ASCII digits only. `int()` also accepts non-ASCII Unicode digits, so a review count written in them is rejected by Extraction.ReviewsCountOf.
- Coordinates.ExtractCoordinates: the `except` branch (scraper.py:73-75) has no counterpart, because `float()` cannot fail on a token the regex matched.
- Extraction.ScrapeBusinessData: requires the readings to reach a scroll at which the loop stops. On a page that keeps growing the real loop scrolls further, and a finite list of readings cannot say what it sees next.
- Listings.CollectListings: reads each count once per iteration. The source counts up to three times per iteration (lines 110, 116, 121) and takes the list again on lines 111 and 117. The model assumes the page does not change between these calls.
- Extraction.NameOf: reads the `aria-label` once, while the source reads it twice (lines 142-143). The model assumes both reads agree.
- An exception from `inner_text()` on the address, website or phone element is not modelled: those reads always succeed in the model.
