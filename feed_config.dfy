/**
 * The API project's `WageringFeedConfig` (five settings with their defaults
 * and the feed URL builder) and `WageringFeedConfigValidator`, whose five
 * FluentValidation rules are all evaluated and each report their own failures.
 * `Uri.TryCreate(url, UriKind.Absolute, out uri)` is abstracted as
 * `schemeOf(url)`: the parsed URI's scheme, or `None` when parsing fails.
 */
module FeedConfig {
  import opened Wrappers
  import opened UriText
  import LegacyFeedConfig

  datatype WageringFeedConfig = WageringFeedConfig(
    candidateId: string, webSocketUrl: string, customerApiUrl: string,
    maxFeedDurationMinutes: int, maxRetryAttempts: int)

  const SectionName := "WageringFeed"

  /** A configuration nothing was bound to: empty strings, no duration, three retries. */
  function Default(): (d: WageringFeedConfig)
    ensures d.candidateId == "" && d.webSocketUrl == "" && d.customerApiUrl == ""
    ensures d.maxFeedDurationMinutes == 0 && d.maxRetryAttempts == 3
  {
    WageringFeedConfig("", "", "", 0, 3)
  }

  /**
   * The connection target, built exactly as the feed consumer builds it from
   * the same settings (so the older builder's guarantees carry over: the base
   * URL verbatim, then `?candidateId=`, then only unreserved characters and
   * `%`, decoding back to the id); an empty id gives the bare prefix.
   */
  function GetFullWebSocketUrl(c: WageringFeedConfig): (url: string)
    ensures url == LegacyFeedConfig.GetFullWebSocketUrl(AsLegacy(c))
    ensures c.candidateId == "" ==> url == c.webSocketUrl + "?candidateId="
  {
    c.webSocketUrl + "?candidateId=" + EscapeDataString(c.candidateId)
  }

  datatype Property = CandidateId | WebSocketUrl | CustomerApiUrl | MaxFeedDurationMinutes | MaxRetryAttempts

  datatype Rule = NotEmpty | ValidWebSocketUrl | ValidHttpUrl | GreaterThanOrEqualTo(bound: int)

  datatype ValidationFailure = ValidationFailure(property: Property, rule: Rule)

  /** `BeValidWebSocketUrl`: the same test as the feed consumer's; no URL passes it and the http test. */
  predicate BeValidWebSocketUrl(url: string, schemeOf: string -> Option<string>): (ok: bool)
    ensures ok <==> LegacyFeedConfig.IsWebSocketScheme(schemeOf(url))
    ensures ok ==> !BeValidHttpUrl(url, schemeOf)
  {
    schemeOf(url).Some? && (schemeOf(url).value == "ws" || schemeOf(url).value == "wss")
  }

  /** `BeValidHttpUrl`: the same test as the feed consumer's. */
  predicate BeValidHttpUrl(url: string, schemeOf: string -> Option<string>): (ok: bool)
    ensures ok <==> LegacyFeedConfig.IsHttpScheme(schemeOf(url))
  {
    schemeOf(url).Some? && (schemeOf(url).value == "http" || schemeOf(url).value == "https")
  }

  /** FluentValidation's `NotEmpty` on a string also rejects whitespace-only text. */
  function NotEmptyFailures(property: Property, value: string): seq<ValidationFailure>
  {
    if IsNullOrWhiteSpace(value) then [ValidationFailure(property, NotEmpty)] else []
  }

  function MustFailures(property: Property, rule: Rule, holds: bool): seq<ValidationFailure>
  {
    if holds then [] else [ValidationFailure(property, rule)]
  }

  function AtLeastFailures(property: Property, value: int, bound: int): seq<ValidationFailure>
  {
    if value >= bound then [] else [ValidationFailure(property, GreaterThanOrEqualTo(bound))]
  }

  /** The field a rule reads, as a comparable value. */
  datatype FieldValue = Text(text: string) | Number(number: int)
  {
    function AsText(): string { if Text? then text else "" }
    function AsNumber(): int { if Number? then number else 0 }
  }

  function Field(c: WageringFeedConfig, p: Property): FieldValue
  {
    match p
    case CandidateId => Text(c.candidateId)
    case WebSocketUrl => Text(c.webSocketUrl)
    case CustomerApiUrl => Text(c.customerApiUrl)
    case MaxFeedDurationMinutes => Number(c.maxFeedDurationMinutes)
    case MaxRetryAttempts => Number(c.maxRetryAttempts)
  }

  /** The failures of the rules declared for property `p`, given the value of that property alone. */
  function RuleFailures(p: Property, value: FieldValue, schemeOf: string -> Option<string>): (r: seq<ValidationFailure>)
    ensures forall f :: f in r ==> f.property == p
  {
    match p
    case CandidateId => NotEmptyFailures(p, value.AsText())
    case WebSocketUrl =>
      NotEmptyFailures(p, value.AsText()) + MustFailures(p, ValidWebSocketUrl, BeValidWebSocketUrl(value.AsText(), schemeOf))
    case CustomerApiUrl =>
      NotEmptyFailures(p, value.AsText()) + MustFailures(p, ValidHttpUrl, BeValidHttpUrl(value.AsText(), schemeOf))
    case MaxFeedDurationMinutes => AtLeastFailures(p, value.AsNumber(), 3)
    case MaxRetryAttempts => AtLeastFailures(p, value.AsNumber(), 0)
  }

  function Rules(c: WageringFeedConfig, p: Property, schemeOf: string -> Option<string>): seq<ValidationFailure>
  {
    RuleFailures(p, Field(c, p), schemeOf)
  }

  /** The failures of each rule, in declaration order; every rule is evaluated. */
  function Validate(c: WageringFeedConfig, schemeOf: string -> Option<string>): (failures: seq<ValidationFailure>)
    ensures failures == [] <==>
      && !IsNullOrWhiteSpace(c.candidateId)
      && !IsNullOrWhiteSpace(c.webSocketUrl) && BeValidWebSocketUrl(c.webSocketUrl, schemeOf)
      && !IsNullOrWhiteSpace(c.customerApiUrl) && BeValidHttpUrl(c.customerApiUrl, schemeOf)
      && c.maxFeedDurationMinutes >= 3
      && c.maxRetryAttempts >= 0
    ensures ValidationFailure(MaxFeedDurationMinutes, GreaterThanOrEqualTo(3)) in failures <==> c.maxFeedDurationMinutes < 3
    ensures ValidationFailure(MaxRetryAttempts, GreaterThanOrEqualTo(0)) in failures <==> c.maxRetryAttempts < 0
  {
    Rules(c, CandidateId, schemeOf)
    + Rules(c, WebSocketUrl, schemeOf)
    + Rules(c, CustomerApiUrl, schemeOf)
    + Rules(c, MaxFeedDurationMinutes, schemeOf)
    + Rules(c, MaxRetryAttempts, schemeOf)
  }

  /** The failures reported for one property. */
  function FailuresFor(failures: seq<ValidationFailure>, p: Property): (r: seq<ValidationFailure>)
    ensures forall f :: f in r <==> f in failures && f.property == p
  {
    if failures == [] then []
    else (if failures[0].property == p then [failures[0]] else []) + FailuresFor(failures[1..], p)
  }

  lemma {:induction false} FailuresForAppend(a: seq<ValidationFailure>, b: seq<ValidationFailure>, p: Property)
    ensures FailuresFor(a + b, p) == FailuresFor(a, p) + FailuresFor(b, p)
  {
    if a == [] {
      assert a + b == b;
    } else {
      assert (a + b)[1..] == a[1..] + b;
      FailuresForAppend(a[1..], b, p);
    }
  }

  lemma {:induction false} FailuresForOwn(r: seq<ValidationFailure>, q: Property, p: Property)
    requires forall f :: f in r ==> f.property == q
    ensures FailuresFor(r, p) == if p == q then r else []
  {
    if r != [] {
      assert r[0] in r;
      assert forall f :: f in r[1..] ==> f in r;
      FailuresForOwn(r[1..], q, p);
      assert [r[0]] + r[1..] == r;
    }
  }

  /** The failures reported for a property are exactly those of the rules declared for it. */
  lemma ValidateByProperty(c: WageringFeedConfig, p: Property, schemeOf: string -> Option<string>)
    ensures FailuresFor(Validate(c, schemeOf), p) == Rules(c, p, schemeOf)
  {
    var a, b, d, e, g :=
      Rules(c, CandidateId, schemeOf), Rules(c, WebSocketUrl, schemeOf), Rules(c, CustomerApiUrl, schemeOf),
      Rules(c, MaxFeedDurationMinutes, schemeOf), Rules(c, MaxRetryAttempts, schemeOf);
    FailuresForAppend(a + b + d + e, g, p);
    FailuresForAppend(a + b + d, e, p);
    FailuresForAppend(a + b, d, p);
    FailuresForAppend(a, b, p);
    FailuresForOwn(a, CandidateId, p);
    FailuresForOwn(b, WebSocketUrl, p);
    FailuresForOwn(d, CustomerApiUrl, p);
    FailuresForOwn(e, MaxFeedDurationMinutes, p);
    FailuresForOwn(g, MaxRetryAttempts, p);
    assert FailuresFor(Validate(c, schemeOf), p)
      == FailuresFor(a, p) + FailuresFor(b, p) + FailuresFor(d, p) + FailuresFor(e, p) + FailuresFor(g, p);
    match p {
      case CandidateId => assert a + [] + [] + [] + [] == a;
      case WebSocketUrl => assert [] + b + [] + [] + [] == b;
      case CustomerApiUrl => assert [] + [] + d + [] + [] == d;
      case MaxFeedDurationMinutes => assert [] + [] + [] + e + [] == e;
      case MaxRetryAttempts => assert [] + [] + [] + [] + g == g;
    }
  }

  /** Each rule reads only its own setting: two configurations that agree on a setting get the same failures for it. */
  lemma RulesAreIndependent(c: WageringFeedConfig, d: WageringFeedConfig, p: Property, schemeOf: string -> Option<string>)
    requires Field(c, p) == Field(d, p)
    ensures FailuresFor(Validate(c, schemeOf), p) == FailuresFor(Validate(d, schemeOf), p)
  {
    ValidateByProperty(c, p, schemeOf);
    ValidateByProperty(d, p, schemeOf);
  }

  /** The defaults do not validate: every setting but the retry count is reported. */
  lemma DefaultIsInvalid(schemeOf: string -> Option<string>)
    ensures var failures := Validate(Default(), schemeOf);
      && ValidationFailure(CandidateId, NotEmpty) in failures
      && ValidationFailure(WebSocketUrl, NotEmpty) in failures
      && ValidationFailure(CustomerApiUrl, NotEmpty) in failures
      && ValidationFailure(MaxFeedDurationMinutes, GreaterThanOrEqualTo(3)) in failures
      && FailuresFor(failures, MaxRetryAttempts) == []
  {
    ValidateByProperty(Default(), MaxRetryAttempts, schemeOf);
  }

  function AsLegacy(c: WageringFeedConfig): LegacyFeedConfig.WageringFeedConfig
  {
    LegacyFeedConfig.WageringFeedConfig(c.candidateId, c.webSocketUrl, c.customerApiUrl, c.maxFeedDurationMinutes)
  }

  /**
   * The validator is the older hand-written check made stricter: it accepts
   * exactly what the older check accepts with a duration of at least 3 minutes
   * and a non-negative retry count. Durations of 1 and 2 minutes pass the older
   * check and fail the validator.
   */
  lemma ValidatorRefinesLegacyCheck(c: WageringFeedConfig, schemeOf: string -> Option<string>)
    ensures Validate(c, schemeOf) == [] <==>
      LegacyFeedConfig.Validate(AsLegacy(c), schemeOf).Valid? && c.maxFeedDurationMinutes >= 3 && c.maxRetryAttempts >= 0
    ensures 0 < c.maxFeedDurationMinutes < 3 ==> Validate(c, schemeOf) != []
  {
  }
}
