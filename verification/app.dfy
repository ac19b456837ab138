/**
 * The `/scrape` endpoint of app.py: read `search_for` and `total` from the
 * JSON body, reject bad input with a 400 response, otherwise run the scraper
 * on the inputs as given and answer 200 with its records, or 500 when it
 * raises. The scraper is a parameter: whatever it returns or raises for the
 * validated inputs.
 */
module App {
  import opened Wrappers
  import opened Text
  import opened Numbers
  import opened Extraction

  /** A JSON value as Flask parses or emits it; numbers are exact. */
  datatype Json =
    | JNull
    | JBool(b: bool)
    | JInt(i: int)
    | JFloat(r: real)
    | JString(s: string)
    | JArray(items: seq<Json>)
    | JObject(fields: map<string, Json>)

  /** `data.get(key)`: the value under `key`, or None when there is none. */
  function Get(fields: map<string, Json>, key: string): Json {
    if key in fields then fields[key] else JNull
  }

  const SearchForError := "search_for must be a non-empty string"
  const TotalError := "total must be a positive integer"
  const ScrapingError := "An error occurred during scraping"

  /** `isinstance(v, int)`, with its value: a JSON boolean is a Python `bool`, which is an `int`. */
  function IntOf(v: Json): (r: Option<int>)
    ensures r.Some? <==> v.JInt? || v.JBool?
  {
    match v
    case JInt(i) => Some(i)
    case JBool(b) => Some(if b then 1 else 0)
    case _ => None
  }

  /** The checks of app.py:16-23: the scraper's inputs, or the message of the 400 response. */
  function Validate(fields: map<string, Json>): Result<(string, int), string> {
    var searchFor := Get(fields, "search_for");
    var total := Get(fields, "total");
    if !searchFor.JString? || Strip(searchFor.s) == [] then Failure(SearchForError)
    else if IntOf(total).None? || IntOf(total).value <= 0 then Failure(TotalError)
    else Success((searchFor.s, IntOf(total).value))
  }

  /** `search_for` passes: a string with something besides whitespace. */
  predicate SearchForValid(v: Json) {
    v.JString? && !Blank(v.s)
  }

  /** `total` passes: an int or a boolean, above zero. */
  predicate TotalValid(v: Json) {
    (v.JInt? && v.i > 0) || v == JBool(true)
  }

  /** What `scrape_business_data` does for the inputs it is given. */
  datatype Outcome = Returned(businesses: seq<Business>) | Raised(details: string)

  /** What the endpoint answers: a JSON response, or Flask's own error page for an exception outside the `try`. */
  datatype Response = Response(status: nat, body: Json) | Unhandled

  /** A coordinate or rating as JSON: a number, or null when absent. */
  function DecimalJson(d: Option<Decimal>): Json {
    match d
    case Some(x) => JFloat(Value(x))
    case None => JNull
  }

  /** `asdict(business)`. */
  function AsDict(b: Business): Json {
    JObject(map[
      "name" := JString(b.name),
      "address" := JString(b.address),
      "website" := JString(b.website),
      "phone_number" := JString(b.phone),
      "reviews_count" := (match b.reviewsCount case Count(n) => JInt(n) case NoCount => JString("")),
      "reviews_average" := (match b.reviewsAverage case Rating(d) => JFloat(Value(d)) case NoRating => JString("")),
      "latitude" := DecimalJson(b.latitude),
      "longitude" := DecimalJson(b.longitude)])
  }

  /** `[asdict(business) for business in business_list.business_list]`. */
  function AsDicts(bs: seq<Business>): (r: seq<Json>)
    ensures |r| == |bs|
    ensures forall i :: 0 <= i < |bs| ==> r[i] == AsDict(bs[i])
  {
    if bs == [] then [] else [AsDict(bs[0])] + AsDicts(bs[1..])
  }

  /** `scrape()`: validate, run the scraper, shape the response. */
  function Scrape(body: Json, run: (string, int) -> Outcome): Response {
    if !body.JObject? then Unhandled
    else
      match Validate(body.fields)
      case Failure(message) => Response(400, JObject(map["error" := JString(message)]))
      case Success(inputs) =>
        match run(inputs.0, inputs.1)
        case Returned(bs) => Response(200, JObject(map["businesses" := JArray(AsDicts(bs))]))
        case Raised(details) =>
          Response(500, JObject(map["error" := JString(ScrapingError), "details" := JString(details)]))
  }

  // ---------------------------------------------------------------------
  // What the endpoint promises.

  /** `search_for` is checked first: when it is bad, its message is the answer whatever `total` is. */
  lemma SearchForCheckedFirst(fields: map<string, Json>)
    requires !SearchForValid(Get(fields, "search_for"))
    ensures Validate(fields) == Failure(SearchForError)
  {
  }

  /** `data.get` makes a missing key and an explicit `null` alike: the validation answer is the same. */
  lemma MissingKeyIsNull(fields: map<string, Json>, key: string)
    requires key !in fields
    ensures Validate(fields) == Validate(fields[key := JNull])
  {
  }

  /** With a good `search_for`, a bad `total` gets the `total` message. */
  lemma TotalChecked(fields: map<string, Json>)
    requires SearchForValid(Get(fields, "search_for")) && !TotalValid(Get(fields, "total"))
    ensures Validate(fields) == Failure(TotalError)
  {
  }

  /**
   * Validation passes exactly when both inputs are good, and then hands over
   * `search_for` as sent (not stripped) and the value of `total`.
   */
  lemma ValidInputsPassUnchanged(fields: map<string, Json>)
    ensures Validate(fields).Success? <==>
              SearchForValid(Get(fields, "search_for")) && TotalValid(Get(fields, "total"))
    ensures Validate(fields).Success? ==>
              JString(Validate(fields).value.0) == fields["search_for"] &&
              Validate(fields).value.1 > 0 &&
              (fields["total"] == JInt(Validate(fields).value.1) ||
               (fields["total"] == JBool(true) && Validate(fields).value.1 == 1))
  {
  }

  /** Which response comes back, and that the scraper sees exactly the validated inputs. */
  lemma ScrapeResponses(fields: map<string, Json>, run: (string, int) -> Outcome)
    ensures Validate(fields).Failure? ==>
              Scrape(JObject(fields), run) == Response(400, JObject(map["error" := JString(Validate(fields).error)]))
    ensures (Scrape(JObject(fields), run).Response? && Scrape(JObject(fields), run).status == 400) <==>
              Validate(fields).Failure?
    ensures Validate(fields).Success? ==>
              var outcome := run(Validate(fields).value.0, Validate(fields).value.1);
              (outcome.Returned? ==> Scrape(JObject(fields), run).status == 200) &&
              (outcome.Raised? ==>
                Scrape(JObject(fields), run) ==
                Response(500, JObject(map["error" := JString(ScrapingError), "details" := JString(outcome.details)])))
  {
  }

  /** On success the response lists one dictionary per record, in the scraper's order. */
  lemma SuccessListsRecords(fields: map<string, Json>, run: (string, int) -> Outcome, bs: seq<Business>)
    requires Validate(fields).Success? && run(Validate(fields).value.0, Validate(fields).value.1) == Returned(bs)
    ensures Scrape(JObject(fields), run).status == 200
    ensures var items := Scrape(JObject(fields), run).body.fields["businesses"].items;
            |items| == |bs| && forall i :: 0 <= i < |bs| ==> items[i] == AsDict(bs[i])
  {
  }

  /** A body that is not a JSON object makes `data.get` raise outside the `try`. */
  lemma NonObjectUnhandled(body: Json, run: (string, int) -> Outcome)
    ensures Scrape(body, run) == Unhandled <==> !body.JObject?
  {
  }

  /**
   * Every record becomes a dictionary with the eight field names; a missing
   * review count or rating is the empty string, never a number.
   */
  lemma AsDictShape(b: Business)
    ensures AsDict(b).fields.Keys ==
              {"name", "address", "website", "phone_number", "reviews_count", "reviews_average", "latitude", "longitude"}
    ensures AsDict(b).fields["reviews_count"] == JString("") <==> b.reviewsCount == NoCount
    ensures AsDict(b).fields["reviews_average"] == JString("") <==> b.reviewsAverage == NoRating
    ensures AsDict(b).fields["latitude"] == JNull <==> b.latitude.None?
    ensures AsDict(b).fields["longitude"] == JNull <==> b.longitude.None?
  {
  }

  /** `"   "` is not a search, but `" cafe "` is, and goes to the scraper with its spaces. */
  lemma SearchForExamples()
    ensures Validate(map["search_for" := JString("   "), "total" := JInt(5)]) == Failure(SearchForError)
    ensures Validate(map["search_for" := JString(" cafe "), "total" := JInt(5)]) == Success((" cafe ", 5))
  {
  }
}
