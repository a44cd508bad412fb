/**
 * `fetchUniProtSequences` (src/app/actions.ts): building the UniProt search
 * query and request URL, and the result returned for each way the request
 * can end. The request itself is not modelled: how it ended is a parameter.
 */
module Actions {
  import opened Wrappers
  import opened Types
  import JsString
  import Uri

  const BaseUrl := "https://rest.uniprot.org/uniprotkb/search"
  const Fields := "accession,protein_name,organism_name,sequence,ft_coiled"
  const QuerySuffix := " AND reviewed:true AND ft_coiled:*"
  const ErrorPrefix := "Failed to fetch data from UniProt: "
  const ErrorOccurred := "An error occurred: "
  const UnknownError := "An unknown error occurred while fetching data."
  const MaxErrorText := 100

  /** `/^\d+$/.test(s)`: one or more ASCII digits and nothing else. */
  predicate IsAllDigits(s: string)
  {
    |s| >= 1 && forall i :: 0 <= i < |s| ==> JsString.IsDigit(s[i])
  }

  /**
   * The organism filter: a taxon identifier when the text is all digits,
   * otherwise the name in double quotes, passed through
   * `decodeURIComponent(encodeURIComponent(...))`, which leaves it unchanged.
   */
  function OrganismQueryPart(organism: string): (r: string)
    ensures IsAllDigits(organism) ==> r == "organism_id:" + organism
    ensures !IsAllDigits(organism) ==> r == "organism_name:\"" + organism + "\""
  {
    if IsAllDigits(organism) then "organism_id:" + organism
    else
      Uri.DecodeEncode(organism);
      "organism_name:\"" + Uri.DecodeComponent(Uri.EncodeComponent(organism)).value + "\""
  }

  /** The query: the organism filter conjoined with the reviewed and coiled-coil filters. */
  function Query(organism: string): (r: string)
    ensures IsAllDigits(organism) ==> r == "organism_id:" + organism + QuerySuffix
    ensures !IsAllDigits(organism) ==> r == "organism_name:\"" + organism + "\"" + QuerySuffix
  {
    OrganismQueryPart(organism) + QuerySuffix
  }

  /**
   * The request URL: the query percent-encoded, then the fixed fields,
   * format and page size. The encoded query cannot end or split its
   * parameter, and decoding it gives back the query.
   */
  function ApiUrl(organism: string, limit: int): (r: string)
    ensures var encoded := Uri.EncodeComponent(Query(organism));
      && r == BaseUrl + "?query=" + encoded + "&fields=" + Fields + "&format=json&size=" + JsString.NumberToString(limit)
      && (forall i :: 0 <= i < |encoded| ==> encoded[i] !in " \"&=#")
      && Uri.DecodeComponent(encoded) == Some(Query(organism))
  {
    EncodedQueryIsConfined(organism);
    BaseUrl + "?query=" + Uri.EncodeComponent(Query(organism))
    + "&fields=" + Fields + "&format=json&size=" + JsString.NumberToString(limit)
  }

  /** The response body as quoted in the error: its first 100 characters, then "..." if there were more. */
  function TruncatedErrorText(text: string): (r: string)
    ensures |text| <= MaxErrorText ==> r == text
    ensures |text| > MaxErrorText ==> r == text[..MaxErrorText] + "..." && |r| == MaxErrorText + 3
  {
    JsString.Substring(text, 0, MaxErrorText) + (if |text| > MaxErrorText then "..." else "")
  }

  /**
   * The HTTP error message names the status and quotes at most 100
   * characters of the body, adding "..." exactly when the body was longer.
   */
  function HttpErrorMessage(status: int, text: string): (r: string)
    ensures r == ErrorPrefix + JsString.NumberToString(status) + " "
                 + text[..if |text| <= MaxErrorText then |text| else MaxErrorText]
                 + (if |text| > MaxErrorText then "..." else "")
  {
    ErrorPrefix + JsString.NumberToString(status) + " " + TruncatedErrorText(text)
  }

  /** How the request ended; the network and the response decoding are outside the model. */
  datatype FetchOutcome =
    | HttpFailure(status: int, body: string)       // `!response.ok`, with the body text
    | Received(results: Option<seq<RawUniProtEntry>>)  // `response.json()` and its `results`
    | Threw(message: Option<string>)               // an `Error` with its message, or any other value

  datatype FetchResult = FetchResult(apiUrl: string, data: Option<seq<RawUniProtEntry>>, error: Option<string>)

  function FetchUniProtSequences(organism: string, limit: int, outcome: FetchOutcome): (r: FetchResult)
    ensures r.apiUrl == ApiUrl(organism, limit)
    ensures r.data.Some? ==> r.error.None?
    ensures r.error.Some? <==> !outcome.Received?
    ensures r.error.Some? ==> r.error.value != ""
    ensures outcome.Received? ==> r.data == outcome.results
    ensures outcome.HttpFailure? ==> r.error == Some(HttpErrorMessage(outcome.status, outcome.body))
    ensures outcome.Threw? ==>
      r.error == Some(if outcome.message.Some? then ErrorOccurred + outcome.message.value else UnknownError)
  {
    var apiUrl := ApiUrl(organism, limit);
    match outcome
    case HttpFailure(status, body) => FetchResult(apiUrl, None, Some(HttpErrorMessage(status, body)))
    case Received(results) => FetchResult(apiUrl, results, None)
    case Threw(message) =>
      if message.Some? then FetchResult(apiUrl, None, Some(ErrorOccurred + message.value))
      else FetchResult(apiUrl, None, Some(UnknownError))
  }

  // ---------------------------------------------------------------------
  // Properties of the query and the URL.
  // ---------------------------------------------------------------------

  /**
   * Digit text without a leading zero is the decimal rendering of the taxon
   * number it names, and the filter uses that number.
   */
  lemma DigitTextIsTaxonNumber(organism: string)
    requires IsAllDigits(organism) && (organism[0] != '0' || |organism| == 1)
    ensures OrganismQueryPart(organism) == "organism_id:" + JsString.NatToString(JsString.DigitsValue(organism))
  {
    JsString.DigitsRoundTrip(organism);
  }

  /** A rendered taxon number is always taken as a taxon identifier. */
  lemma TaxonNumberIsId(taxon: nat)
    ensures OrganismQueryPart(JsString.NatToString(taxon)) == "organism_id:" + JsString.NatToString(taxon)
  {
  }

  /** None of the characters that would end or split the `query` parameter survives encoding. */
  lemma EncodedCharIsConfined(c: char)
    requires Uri.IsEncodedChar(c)
    ensures c !in " \"&=#"
  {
  }

  /**
   * The encoded query holds no space, quote, `&`, `=` or `#`, so whatever
   * the organism text, it stays inside the `query` parameter of the URL,
   * and decoding it gives back the query exactly.
   */
  lemma EncodedQueryIsConfined(organism: string)
    ensures var encoded := Uri.EncodeComponent(Query(organism));
      && (forall i :: 0 <= i < |encoded| ==> encoded[i] !in " \"&=#")
      && Uri.DecodeComponent(encoded) == Some(Query(organism))
  {
    var encoded := Uri.EncodeComponent(Query(organism));
    forall i | 0 <= i < |encoded| ensures encoded[i] !in " \"&=#" {
      EncodedCharIsConfined(encoded[i]);
    }
    Uri.DecodeEncode(Query(organism));
  }

  /**
   * A message can end in "..." without any truncation: a body that itself
   * ends in "..." is quoted whole.
   */
  lemma EllipsisAloneIsNotTruncation()
    ensures HttpErrorMessage(500, "...") == ErrorPrefix + "500" + " " + "..."
  {
    assert JsString.NumberToString(500) == "500" by {
      assert JsString.NatToString(5) == "5";
      assert JsString.NatToString(50) == "50";
    }
    assert TruncatedErrorText("...") == "...";
  }

  /** A server failure with status 500 and body "server error", for any organism and limit. */
  lemma ServerErrorExample(organism: string, limit: int)
    ensures FetchUniProtSequences(organism, limit, HttpFailure(500, "server error")).error
            == Some(ErrorPrefix + "500" + " " + "server error")
  {
    assert JsString.NumberToString(500) == "500" by {
      assert JsString.NatToString(5) == "5";
      assert JsString.NatToString(50) == "50";
    }
    assert TruncatedErrorText("server error") == "server error";
    assert FetchUniProtSequences(organism, limit, HttpFailure(500, "server error")).error
           == Some(HttpErrorMessage(500, "server error"));
  }
}
