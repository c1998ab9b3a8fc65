/**
 * The API client object: its settings, the URL builder, and the
 * ZeroClickInfo query that ties the URL builder, the transport, the JSON
 * decoder and the result mapper together. The transport and the decoder
 * are outside the model and come in as functions.
 */
module DuckDuckGoApi {
  import opened Wrappers
  import opened Json
  import opened UrlEncoding
  import opened Query
  import opened ZeroClick

  const DefaultBaseURL: Bytes := "api.duckduckgo.com"

  function SchemePrefix(secure: bool): Bytes {
    if secure then "https://" else "http://"
  }

  /** An integer flag 1 or 0, as the string PHP sends for it. */
  function Flag(b: bool): Bytes {
    if b then "1" else "0"
  }

  /** The options of a ZeroClickInfo query, in the order they are sent. */
  function ZeroClickOptions(query: Bytes, noHTML: bool, noDisambiguations: bool): (options: Options)
    ensures |options| == 5 && options[0] == ("q", query)
    ensures [options[0].0, options[1].0, options[2].0, options[3].0, options[4].0]
            == ["q", "format", "no_html", "no_redirect", "skip_disambig"]
    ensures options[1].1 == "json" && options[3].1 == "1"
    ensures options[2].1 == (if noHTML then "1" else "0")
    ensures options[4].1 == (if noDisambiguations then "1" else "0")
  {
    [("q", query), ("format", "json"), ("no_html", Flag(noHTML)),
     ("no_redirect", "1"), ("skip_disambig", Flag(noDisambiguations))]
  }

  // Proof helpers for ConstructURL: they keep its verification within the resource limit.

  /** The text ConstructURL builds for an option after the first is its `&name=value` piece. */
  lemma PieceText(p: (Bytes, Bytes))
    ensures "&" + UrlEncode(p.0) + "=" + UrlEncode(p.1) == Piece(p)
  {
    var name, value := UrlEncode(p.0), UrlEncode(p.1);
    assert "&" + name + "=" + value == "&" + (name + "=" + value);
  }

  /** The text ConstructURL builds for the first option is `?` and its encoded pair. */
  lemma FirstText(p: (Bytes, Bytes))
    ensures "?" + UrlEncode(p.0) + "=" + UrlEncode(p.1) == "?" + EncodedPair(p)
  {
    var name, value := UrlEncode(p.0), UrlEncode(p.1);
    assert "?" + name + "=" + value == "?" + (name + "=" + value);
  }

  /** Every option name of a ZeroClickInfo query is sent once. */
  lemma ZeroClickOptionNamesDistinct(query: Bytes, noHTML: bool, noDisambiguations: bool)
    ensures var options := ZeroClickOptions(query, noHTML, noDisambiguations);
            forall i, j :: 0 <= i < j < |options| ==> options[i].0 != options[j].0
  {
  }

  /** One iteration of the option loop of ConstructURL appends the next piece. */
  lemma AppendPiece(prefix: Bytes, rest: Options, i: nat, url: Bytes)
    requires i < |rest|
    requires url == prefix + Continuation(rest[..i])
    ensures url + Piece(rest[i]) == prefix + Continuation(rest[..i + 1])
  {
    assert rest[..i + 1] == rest[..i] + [rest[i]];
    ContinuationSnoc(rest[..i], rest[i]);
    AppendAssoc(prefix, Continuation(rest[..i]), Piece(rest[i]));
  }

  /** Proof helper: concatenation regrouped. */
  lemma AppendAssoc(a: Bytes, b: Bytes, c: Bytes)
    ensures a + b + c == a + (b + c)
  {
  }

  /** PHP truthiness of a fetch result: FALSE on failure, or a falsy string. */
  predicate IsUsableBody(result: Option<Bytes>) {
    result.Some? && Truthy(Str(result.value))
  }

  /** The fetch results `if(!$result)` rejects: FALSE, "" and "0"; every other string is used. */
  lemma UsableBodyIsTruthy(result: Option<Bytes>)
    ensures IsUsableBody(result) <==> result.Some? && result.value != "" && result.value != "0"
    ensures !IsUsableBody(None) && !IsUsableBody(Some("")) && !IsUsableBody(Some("0"))
  {
  }

  class API {
    var baseURL: Bytes
    var secure: bool
    var noHTML: bool
    var noDisambiguations: bool

    constructor ()
      ensures !secure && !noHTML && !noDisambiguations && baseURL == DefaultBaseURL
    {
      secure := false;
      noHTML := false;
      noDisambiguations := false;
      baseURL := DefaultBaseURL;
    }

    /**
     * The URL of an API section with the given options: scheme, host and
     * section, then the query string of the options.
     */
    method ConstructURL(section: Bytes, options: Options) returns (url: Bytes)
      ensures url == SchemePrefix(secure) + baseURL + section + QueryString(options)
    {
      url := "";
      if secure {
        url := url + ("https://" + baseURL);
      } else {
        url := url + ("http://" + baseURL);
      }
      assert url == SchemePrefix(secure) + baseURL;
      url := url + section;
      ghost var base := url;
      if |options| > 0 {
        var first := "?" + UrlEncode(options[0].0) + "=" + UrlEncode(options[0].1);
        FirstText(options[0]);
        url := url + first;
        var rest := options[1..];
        for i := 0 to |rest|
          invariant url == base + first + Continuation(rest[..i])
        {
          var (name, value) := rest[i];
          var piece := "&" + UrlEncode(name) + "=" + UrlEncode(value);
          PieceText(rest[i]);
          AppendPiece(base + first, rest, i, url);
          url := url + piece;
        }
        assert rest[..|rest|] == rest;
        AppendAssoc(base, first, Continuation(rest));
      } else {
        assert url == base + [];
      }
    }

    /** The URL a ZeroClickInfo query for `query` fetches. */
    function ZeroClickURL(query: Bytes): Bytes
      reads this
    {
      SchemePrefix(secure) + baseURL + "/" + QueryString(ZeroClickOptions(query, noHTML, noDisambiguations))
    }

    /**
     * A ZeroClickInfo query: fetch the query URL, fail with a retrieval
     * error when the fetch yields nothing usable, and otherwise map the
     * decoded body (which fails with a parse error when it is falsy).
     */
    method ZeroClickQuery(query: Bytes, fetch: Bytes -> Option<Bytes>, decode: Bytes -> Value)
      returns (r: Result<ZeroClickInfo, ApiError>)
      ensures var result := fetch(ZeroClickURL(query));
              && (!IsUsableBody(result) ==> r == Failure(RetrievalError))
              && (IsUsableBody(result) && !Truthy(decode(result.value)) ==> r == Failure(ParseError))
              && (IsUsableBody(result) && Truthy(decode(result.value)) ==>
                    r.Success? && fresh(r.value) && r.value.Models(decode(result.value)))
    {
      var url := ConstructURL("/", ZeroClickOptions(query, noHTML, noDisambiguations));
      var result := fetch(url);
      if !IsUsableBody(result) {
        return Failure(RetrievalError);
      }
      r := ZeroClickInfo.Create(decode(result.value));
    }
  }

  /**
   * With the constructor's defaults, a query for `query` goes to
   * `http://api.duckduckgo.com/` with a query string that splits into
   * exactly the five ZeroClickInfo options, in order, with both flags 0.
   */
  lemma DefaultZeroClickURL(query: Bytes)
    ensures var q := QueryString(ZeroClickOptions(query, false, false));
            && SchemePrefix(false) + DefaultBaseURL + "/" + q == "http://api.duckduckgo.com/" + q
            && |q| >= 3 && q[..3] == "?q=" && '?' !in q[1..]
            && ParseQuery(q[1..])
               == [("q", query), ("format", "json"), ("no_html", "0"), ("no_redirect", "1"), ("skip_disambig", "0")]
  {
    var options := ZeroClickOptions(query, false, false);
    QueryRoundTrip(options);
    DefaultPrefix(QueryString(options));
    QueryStartsWithQ(options);
  }

  lemma QueryStartsWithQ(options: Options)
    requires |options| > 0 && options[0].0 == "q"
    ensures var q := QueryString(options); |q| >= 3 && q[..3] == "?q="
  {
    UrlEncodeUnreserved("q");
    var q := QueryString(options);
    assert q == "?" + ("q" + "=" + UrlEncode(options[0].1)) + Continuation(options[1..]);
    assert q[1] == 'q' && q[2] == '=';
  }

  /** Proof helper for DefaultZeroClickURL: the default scheme, host and section spelled out. */
  lemma DefaultPrefix(q: Bytes)
    ensures SchemePrefix(false) + DefaultBaseURL + "/" + q == "http://api.duckduckgo.com/" + q
  {
  }
}
