/**
 * The per-listing step of `scrape_business_data`: click a listing, read the
 * fields of its detail pane into a `Business`, and append the record to the
 * `BusinessList` only if every step succeeded. Any exception drops the
 * listing and the loop carries on with the next one.
 *
 * The browser is replaced by what it would show: for each handle, the
 * `Pane` seen after clicking it, or None when the click itself fails.
 */
module Extraction {
  import opened Wrappers
  import opened Text
  import opened Numbers
  import opened Coordinates
  import opened Listings

  /** What the page shows once a listing has been clicked. */
  datatype Pane = Pane(
    ariaLabel: Option<string>,          // the listing's `aria-label` attribute, None when absent
    addresses: seq<string>,             // inner texts of the address elements, in document order
    websites: seq<string>,              // inner texts of the website elements
    phones: seq<string>,                // inner texts of the phone-number elements
    reviewCounts: seq<string>,          // inner texts of the review-count elements
    ratingLabels: seq<Option<string>>,  // `aria-label`s of the star-rating elements
    url: string)                        // `page.url`

  /** `reviews_count`: an int, or the empty string when the page shows no review count. */
  datatype Count = Count(value: int) | NoCount

  /** `reviews_average`: the rating as a decimal, or the empty string when the page shows none. */
  datatype Rating = Rating(value: Decimal) | NoRating

  /** The `Business` record of scraper.py:12-22 as the loop fills it in. */
  datatype Business = Business(
    name: string,
    address: string,
    website: string,
    phone: string,
    reviewsCount: Count,
    reviewsAverage: Rating,
    latitude: Option<Decimal>,
    longitude: Option<Decimal>)

  /** The exceptions that abandon a listing. */
  datatype Fault =
    | ClickFailed     // `listing.click()` raised
    | NoLabel         // an `aria-label` was None: `len(None)` or `None.split()`
    | Ambiguous       // a strict locator matched more than one element
    | NoToken         // `split()[0]` of a text with no word
    | NotAnInt        // `int()` rejected the review count
    | NotAFloat       // `float()` rejected the rating

  /** `name`: the `aria-label`, or "" when it is empty; a missing label raises. */
  function NameOf(ariaLabel: Option<string>): (r: Result<string, Fault>)
    ensures r.Failure? <==> ariaLabel.None?
    ensures r.Success? ==> r.value == ariaLabel.value
  {
    match ariaLabel
    case None => Failure(NoLabel)
    case Some(text) => if |text| >= 1 then Success(text) else Success("")
  }

  /** `address`, `website`, `phone_number`: the text of the first matching element, or "". */
  function FirstText(texts: seq<string>): string {
    if |texts| > 0 then texts[0] else ""
  }

  /** The first word of `text`, which the source takes with `split()[0]`. */
  function FirstWord(text: string): (r: Result<string, Fault>)
    ensures r.Failure? <==> Blank(text)
    ensures r.Success? ==> IsWord(r.value)
    ensures r.Success? ==> exists i :: 0 <= i < |text| && Blank(text[..i]) && !IsSpace(text[i]) &&
                                       r.value == text[i..SkipWord(text, i)]
  {
    var words := Words(text);
    WordsEmptyIffBlank(text);
    WordsAreWords(text);
    if words == [] then Failure(NoToken) else Success(words[0])
  }

  /**
   * `reviews_count`: with no element, the empty string; otherwise the first
   * word of the (single) element's text, commas removed, read by `int()`.
   */
  function ReviewsCountOf(texts: seq<string>): Result<Count, Fault> {
    if |texts| == 0 then Success(NoCount)
    else if |texts| > 1 then Failure(Ambiguous)
    else
      var word :- FirstWord(texts[0]);
      var token := Strip(RemoveChar(word, ','));
      if IsIntText(token) then Success(Count(IntValue(token))) else Failure(NotAnInt)
  }

  /**
   * `reviews_average`: with no element, the empty string; otherwise the first
   * word of the (single) element's `aria-label`, decimal comma turned into a
   * dot, read by `float()`.
   */
  function ReviewsAverageOf(labels: seq<Option<string>>): Result<Rating, Fault> {
    if |labels| == 0 then Success(NoRating)
    else if |labels| > 1 then Failure(Ambiguous)
    else if labels[0].None? then Failure(NoLabel)
    else
      var word :- FirstWord(labels[0].value);
      var token := Strip(ReplaceChar(word, ',', '.'));
      if IsNumberText(token) then Success(Rating(Parse(token))) else Failure(NotAFloat)
  }

  /** The body of the `try` block for one listing: a record, or the exception that abandons it. */
  function ExtractBusiness(shown: Option<Pane>): Result<Business, Fault> {
    if shown.None? then Failure(ClickFailed)
    else
      var pane := shown.value;
      var name :- NameOf(pane.ariaLabel);
      var count :- ReviewsCountOf(pane.reviewCounts);
      var rating :- ReviewsAverageOf(pane.ratingLabels);
      var coordinates := ExtractCoordinates(pane.url);
      Success(Business(name, FirstText(pane.addresses), FirstText(pane.websites), FirstText(pane.phones),
                       count, rating, coordinates.0, coordinates.1))
  }

  /** The records the loop appends for `handles`, in order: one per listing whose step succeeded. */
  function Harvest(handles: seq<Handle>, visit: Handle -> Option<Pane>): seq<Business> {
    if handles == [] then []
    else
      var earlier := Harvest(handles[..|handles| - 1], visit);
      match ExtractBusiness(visit(handles[|handles| - 1]))
      case Success(b) => earlier + [b]
      case Failure(_) => earlier
  }

  /** The `BusinessList` record: a list of businesses the scraper appends to. */
  class BusinessList {
    var businesses: seq<Business>

    constructor()
      ensures businesses == []
    {
      businesses := [];
    }

    /** `business_list.append(business)`. */
    method Append(b: Business)
      modifies this
      ensures businesses == old(businesses) + [b]
    {
      businesses := businesses + [b];
    }
  }

  /** The `for listing in listings` loop of scraper.py:127-183. */
  method ScrapeListings(handles: seq<Handle>, visit: Handle -> Option<Pane>) returns (list: BusinessList)
    ensures fresh(list)
    ensures list.businesses == Harvest(handles, visit)
  {
    list := new BusinessList();
    for i := 0 to |handles|
      invariant list.businesses == Harvest(handles[..i], visit)
    {
      assert handles[..i + 1][..i] == handles[..i];
      var outcome := ExtractBusiness(visit(handles[i]));
      if outcome.Success? {
        list.Append(outcome.value);
      }
    }
    assert handles[..|handles|] == handles;
  }

  /**
   * `scrape_business_data` once the browser is abstracted: the scroll loop
   * collects the handles, then each is clicked and read. The readings must
   * cover the whole scroll loop.
   */
  method ScrapeBusinessData(readings: seq<seq<Element>>, total: int, visit: Handle -> Option<Pane>)
    returns (list: BusinessList)
    requires exists n :: 0 <= n < |readings| && !Continues(readings, total, n)
    ensures fresh(list)
    ensures exists n :: 0 <= n < |readings| && AllContinue(readings, total, n) && !Continues(readings, total, n) &&
                        list.businesses == Harvest(StopHandles(readings, total, n), visit)
    ensures total >= 0 ==> |list.businesses| <= total
  {
    var collected, scrolls := CollectListings(readings, total);
    assert !collected.StillGrowing?;
    var handles := collected.handles;
    HarvestBound(handles, visit);
    list := ScrapeListings(handles, visit);
    assert AllContinue(readings, total, scrolls - 1);
  }

  // ---------------------------------------------------------------------
  // What the fold promises.

  /** There are never more records than handles. */
  lemma {:induction false} HarvestBound(handles: seq<Handle>, visit: Handle -> Option<Pane>)
    ensures |Harvest(handles, visit)| <= |handles|
  {
    if handles != [] {
      HarvestBound(handles[..|handles| - 1], visit);
    }
  }

  /** Harvesting two runs of listings one after the other gives the two harvests one after the other. */
  lemma {:induction false} HarvestAppend(a: seq<Handle>, b: seq<Handle>, visit: Handle -> Option<Pane>)
    ensures Harvest(a + b, visit) == Harvest(a, visit) + Harvest(b, visit)
    decreases |b|
  {
    if b != [] {
      var b' := b[..|b| - 1];
      assert (a + b)[..|a + b| - 1] == a + b';
      assert (a + b)[|a + b| - 1] == b[|b| - 1];
      HarvestAppend(a, b', visit);
    } else {
      assert a + b == a;
    }
  }

  /** A listing whose step raises leaves no trace: the listings around it are harvested as if it were absent. */
  lemma FailedListingDropped(a: seq<Handle>, h: Handle, b: seq<Handle>, visit: Handle -> Option<Pane>)
    requires ExtractBusiness(visit(h)).Failure?
    ensures Harvest(a + [h] + b, visit) == Harvest(a, visit) + Harvest(b, visit)
  {
    HarvestAppend(a + [h], b, visit);
    HarvestAppend(a, [h], visit);
    assert Harvest([h], visit) == [] by {
      assert [h][..0] == [];
    }
  }

  /** A listing whose step succeeds contributes exactly its record, between those of its neighbours. */
  lemma SucceededListingKept(a: seq<Handle>, h: Handle, b: seq<Handle>, visit: Handle -> Option<Pane>)
    requires ExtractBusiness(visit(h)).Success?
    ensures Harvest(a + [h] + b, visit) == Harvest(a, visit) + [ExtractBusiness(visit(h)).value] + Harvest(b, visit)
  {
    HarvestAppend(a + [h], b, visit);
    HarvestAppend(a, [h], visit);
    assert Harvest([h], visit) == [ExtractBusiness(visit(h)).value] by {
      assert [h][..0] == [];
    }
  }

  /** When every listing's step succeeds, there is one record per listing, in listing order. */
  lemma {:induction false} HarvestAllSucceed(handles: seq<Handle>, visit: Handle -> Option<Pane>)
    requires forall i :: 0 <= i < |handles| ==> ExtractBusiness(visit(handles[i])).Success?
    ensures |Harvest(handles, visit)| == |handles|
    ensures forall i :: 0 <= i < |handles| ==> Harvest(handles, visit)[i] == ExtractBusiness(visit(handles[i])).value
  {
    if handles != [] {
      HarvestAllSucceed(handles[..|handles| - 1], visit);
    }
  }

  /** Every record comes from some listing whose step succeeded. */
  lemma {:induction false} HarvestFromListings(handles: seq<Handle>, visit: Handle -> Option<Pane>)
    ensures forall b :: b in Harvest(handles, visit) ==>
              exists i :: 0 <= i < |handles| && ExtractBusiness(visit(handles[i])) == Success(b)
  {
    if handles != [] {
      var earlier := handles[..|handles| - 1];
      HarvestFromListings(earlier, visit);
      forall b | b in Harvest(handles, visit)
        ensures exists i :: 0 <= i < |handles| && ExtractBusiness(visit(handles[i])) == Success(b)
      {
        if b in Harvest(earlier, visit) {
          var i :| 0 <= i < |earlier| && ExtractBusiness(visit(earlier[i])) == Success(b);
          assert handles[i] == earlier[i];
        } else {
          assert ExtractBusiness(visit(handles[|handles| - 1])) == Success(b);
        }
      }
    }
  }

  /**
   * Address, website and phone are each read on their own: whatever those
   * elements show, the listing is kept or dropped alike, and only the
   * corresponding field differs.
   */
  lemma TextFieldsIndependent(p: Pane, addresses: seq<string>, websites: seq<string>, phones: seq<string>)
    ensures var q := p.(addresses := addresses, websites := websites, phones := phones);
            ExtractBusiness(Some(q)).Success? == ExtractBusiness(Some(p)).Success? &&
            (ExtractBusiness(Some(p)).Success? ==>
               ExtractBusiness(Some(q)).value ==
               ExtractBusiness(Some(p)).value.(address := FirstText(addresses), website := FirstText(websites),
                                               phone := FirstText(phones)))
  {
  }

  /** The step succeeds exactly when the click works, the label is present and both review fields read. */
  lemma ExtractSucceedsIff(shown: Option<Pane>)
    ensures ExtractBusiness(shown).Success? <==>
              shown.Some? && shown.value.ariaLabel.Some? &&
              ReviewsCountOf(shown.value.reviewCounts).Success? &&
              ReviewsAverageOf(shown.value.ratingLabels).Success?
  {
  }

  /**
   * Without a review-count element the field is the empty-string marker, not
   * absent; with a rating element missing likewise. The name is the label.
   */
  lemma MissingReviewsBlank(p: Pane)
    requires ExtractBusiness(Some(p)).Success?
    ensures p.reviewCounts == [] ==> ExtractBusiness(Some(p)).value.reviewsCount == NoCount
    ensures p.ratingLabels == [] ==> ExtractBusiness(Some(p)).value.reviewsAverage == NoRating
    ensures ExtractBusiness(Some(p)).value.name == p.ariaLabel.value
  {
  }

  /** A review count that is there but does not read as an int drops the listing rather than blanking the field. */
  lemma BadReviewCountDrops(p: Pane)
    requires |p.reviewCounts| == 1
    requires Blank(p.reviewCounts[0]) ||
             !IsIntText(Strip(RemoveChar(Words(p.reviewCounts[0])[0], ',')))
    ensures ExtractBusiness(Some(p)).Failure?
  {
  }

  /**
   * A rating that reads is the decimal the token spells: formatted back, it
   * gives the first word of the label with its decimal comma made a dot.
   */
  lemma RatingReadsToken(labels: seq<Option<string>>)
    requires ReviewsAverageOf(labels).Success? && ReviewsAverageOf(labels).value.Rating?
    ensures |labels| == 1 && labels[0].Some? && !Blank(labels[0].value)
    ensures var d := ReviewsAverageOf(labels).value.value;
            WellFormed(d) && Format(d) == Strip(ReplaceChar(Words(labels[0].value)[0], ',', '.'))
  {
    var word := FirstWord(labels[0].value).value;
    var token := Strip(ReplaceChar(word, ',', '.'));
    NumberTextIffNumber(token);
    ParseFormat(token);
  }

  lemma FirstWordExample()
    ensures FirstWord("1,234 reviews") == Success("1,234")
  {
    var text := "1,234 reviews";
    assert SkipSpace(text, 0) == 0;
    assert SkipWord(text, 0) == 5 by {
      assert !IsSpace(text[0]) && !IsSpace(text[1]) && !IsSpace(text[2]) && !IsSpace(text[3]);
      assert !IsSpace(text[4]) && IsSpace(text[5]);
    }
    assert Words(text)[0] == "1,234";
  }

  lemma RemoveCommaExample()
    ensures RemoveChar("1,234", ',') == "1234"
  {
    assert "1,234"[1..] == ",234" && ",234"[1..] == "234";
    assert RemoveChar("234", ',') == "234";
  }

  lemma TokenExample()
    ensures Strip(RemoveChar("1,234", ',')) == "1234"
  {
    RemoveCommaExample();
    var token := "1234";
    assert forall i :: 0 <= i < |token| ==> IsDigit(token[i]);
    StripWord(token);
  }

  lemma IntTextExample()
    ensures IsIntText("1234") && IntValue("1234") == 1234
  {
    var digits := "1234";
    assert DigitGroups(digits) by {
      assert digits[1..] == "234" && digits[2..] == "34" && digits[3..] == "4";
    }
    assert RemoveChar(digits, '_') == digits;
    assert digits[..3] == "123" && "123"[..2] == "12" && "12"[..1] == "1" && "1"[..0] == "";
  }

  /** The review count is the first word with its thousands separators removed. */
  lemma ReviewCountExample()
    ensures ReviewsCountOf(["1,234 reviews"]) == Success(Count(1234))
  {
    var texts := ["1,234 reviews"];
    FirstWordExample();
    assert FirstWord(texts[0]) == Success("1,234");
    TokenExample();
    IntTextExample();
  }
}
