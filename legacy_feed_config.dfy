/**
 * The feed consumer's `WageringFeedConfig`: four settings, a hand-written
 * `Validate` that throws on the first bad setting, and the feed URL builder.
 * `Uri.TryCreate(url, UriKind.Absolute, out uri)` is abstracted as
 * `schemeOf(url)`: the parsed URI's scheme, or `None` when parsing fails.
 */
module LegacyFeedConfig {
  import opened Wrappers
  import opened UriText

  datatype WageringFeedConfig = WageringFeedConfig(
    candidateId: string, webSocketUrl: string, customerApiUrl: string, maxFeedDurationMinutes: int)

  /** The exception `Validate` throws, with the text it passes to the exception's constructor. */
  datatype ConfigException =
    | ArgumentNullException(paramName: string)
    | ArgumentOutOfRangeException(paramName: string)

  datatype Validation = Valid | Throws(exception: ConfigException)

  predicate IsWebSocketScheme(scheme: Option<string>)
  {
    scheme.Some? && (scheme.value == "ws" || scheme.value == "wss")
  }

  predicate IsHttpScheme(scheme: Option<string>)
  {
    scheme.Some? && (scheme.value == "http" || scheme.value == "https")
  }

  /**
   * The checks run in a fixed order and the first one that fails decides the
   * exception; a configuration that passes them all is valid.
   */
  function Validate(c: WageringFeedConfig, schemeOf: string -> Option<string>): (r: Validation)
    ensures r.Valid? <==>
      && !IsNullOrWhiteSpace(c.candidateId)
      && !IsNullOrWhiteSpace(c.webSocketUrl) && IsWebSocketScheme(schemeOf(c.webSocketUrl))
      && c.maxFeedDurationMinutes > 0
      && !IsNullOrWhiteSpace(c.customerApiUrl) && IsHttpScheme(schemeOf(c.customerApiUrl))
    ensures IsNullOrWhiteSpace(c.candidateId) ==>
      r == Throws(ArgumentNullException("CandidateId must be provided"))
    ensures !IsNullOrWhiteSpace(c.candidateId) && IsNullOrWhiteSpace(c.webSocketUrl) ==>
      r == Throws(ArgumentNullException("WebSocketUrl is required in WageringFeed configuration"))
    ensures (!IsNullOrWhiteSpace(c.candidateId) && !IsNullOrWhiteSpace(c.webSocketUrl)
      && !IsWebSocketScheme(schemeOf(c.webSocketUrl))) ==>
      r == Throws(ArgumentOutOfRangeException(
        "Invalid WebSocketUrl: " + c.webSocketUrl + ". Must be a valid ws:// or wss:// URL"))
    ensures (!IsNullOrWhiteSpace(c.candidateId) && !IsNullOrWhiteSpace(c.webSocketUrl)
      && IsWebSocketScheme(schemeOf(c.webSocketUrl)) && c.maxFeedDurationMinutes <= 0) ==>
      r == Throws(ArgumentOutOfRangeException("MaxFeedDurationMinutes must be greater than 0"))
    ensures (!IsNullOrWhiteSpace(c.candidateId) && !IsNullOrWhiteSpace(c.webSocketUrl)
      && IsWebSocketScheme(schemeOf(c.webSocketUrl)) && c.maxFeedDurationMinutes > 0
      && IsNullOrWhiteSpace(c.customerApiUrl)) ==>
      r == Throws(ArgumentNullException("CustomerApiUrl is required in WageringFeed configuration"))
    ensures (!IsNullOrWhiteSpace(c.candidateId) && !IsNullOrWhiteSpace(c.webSocketUrl)
      && IsWebSocketScheme(schemeOf(c.webSocketUrl)) && c.maxFeedDurationMinutes > 0
      && !IsNullOrWhiteSpace(c.customerApiUrl) && !IsHttpScheme(schemeOf(c.customerApiUrl))) ==>
      r == Throws(ArgumentOutOfRangeException(
        "Invalid CustomerApiUrl: " + c.customerApiUrl + ". Must be a valid http:// or https:// URL"))
    ensures r.Throws? && r.exception.ArgumentNullException? ==>
      IsNullOrWhiteSpace(c.candidateId) || IsNullOrWhiteSpace(c.webSocketUrl) || IsNullOrWhiteSpace(c.customerApiUrl)
    ensures r.Throws? && r.exception.ArgumentOutOfRangeException? ==>
      && !IsNullOrWhiteSpace(c.candidateId) && !IsNullOrWhiteSpace(c.webSocketUrl)
      && (!IsWebSocketScheme(schemeOf(c.webSocketUrl)) || c.maxFeedDurationMinutes <= 0
          || !IsHttpScheme(schemeOf(c.customerApiUrl)))
  {
    if IsNullOrWhiteSpace(c.candidateId) then
      Throws(ArgumentNullException("CandidateId must be provided"))
    else if IsNullOrWhiteSpace(c.webSocketUrl) then
      Throws(ArgumentNullException("WebSocketUrl is required in WageringFeed configuration"))
    else if !IsWebSocketScheme(schemeOf(c.webSocketUrl)) then
      Throws(ArgumentOutOfRangeException(
        "Invalid WebSocketUrl: " + c.webSocketUrl + ". Must be a valid ws:// or wss:// URL"))
    else if c.maxFeedDurationMinutes <= 0 then
      Throws(ArgumentOutOfRangeException("MaxFeedDurationMinutes must be greater than 0"))
    else if IsNullOrWhiteSpace(c.customerApiUrl) then
      Throws(ArgumentNullException("CustomerApiUrl is required in WageringFeed configuration"))
    else if !IsHttpScheme(schemeOf(c.customerApiUrl)) then
      Throws(ArgumentOutOfRangeException(
        "Invalid CustomerApiUrl: " + c.customerApiUrl + ". Must be a valid http:// or https:// URL"))
    else
      Valid
  }

  /**
   * The first failing check decides: with a valid ws:// URL, a zero duration
   * is reported although the customer API URL is blank as well.
   */
  lemma FirstFailureDecides(schemeOf: string -> Option<string>)
    requires schemeOf("ws://h") == Some("ws")
    ensures Validate(WageringFeedConfig("id", "ws://h", "", 0), schemeOf)
         == Throws(ArgumentOutOfRangeException("MaxFeedDurationMinutes must be greater than 0"))
  {
    assert !IsWhiteSpace("id"[0]);
    assert !IsWhiteSpace("ws://h"[0]);
  }

  /**
   * The connection target: the base URL verbatim, then `?candidateId=` and the
   * escaped candidate id, in which only unreserved characters and `%` occur.
   */
  function GetFullWebSocketUrl(c: WageringFeedConfig): (url: string)
    ensures |url| >= |c.webSocketUrl| + 13
    ensures url[..|c.webSocketUrl|] == c.webSocketUrl
    ensures url[|c.webSocketUrl|..|c.webSocketUrl| + 13] == "?candidateId="
    ensures forall i :: |c.webSocketUrl| + 13 <= i < |url| ==> IsUnreserved(url[i]) || url[i] == '%'
    ensures (forall i :: 0 <= i < |c.candidateId| ==> IsUnreserved(c.candidateId[i])) ==>
      url == c.webSocketUrl + "?candidateId=" + c.candidateId
  {
    c.webSocketUrl + "?candidateId=" + EscapeDataString(c.candidateId)
  }

  /** The query value decodes back to the candidate id's UTF-8 octets, whatever characters the id holds. */
  lemma CandidateIdRecoverable(c: WageringFeedConfig)
    ensures var url := GetFullWebSocketUrl(c);
      PercentDecode(url[|c.webSocketUrl| + 13..]) == Some(Utf8Encode(c.candidateId))
  {
    var url := GetFullWebSocketUrl(c);
    assert url[|c.webSocketUrl| + 13..] == EscapeDataString(c.candidateId);
    EscapeRoundTrip(c.candidateId);
  }
}
