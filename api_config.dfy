/** The API configuration: base URL and version read from the environment
    with defaults, the fixed endpoint table, the request timeout, and the
    URL builder. */
module ApiConfig {

  import opened Wrappers

  /** The five operations of the remote API. */
  datatype Endpoint = GeneratePassword | ValidatePassword | EncryptText | DecryptText | Statistics

  function EndpointPath(e: Endpoint): string {
    match e
    case GeneratePassword => "/generate-password"
    case ValidatePassword => "/validate-password"
    case EncryptText => "/encrypt-text"
    case DecryptText => "/decrypt-text"
    case Statistics => "/statistics"
  }

  const DefaultBaseUrl: string := "http://localhost:3000"
  const DefaultApiVersion: string := "v1"
  /** The request timeout in milliseconds. */
  const RequestTimeoutMs: nat := 30000

  datatype Config = Config(baseUrl: string, apiVersion: string, timeoutMs: nat)

  /** The configuration object built from `NEXT_PUBLIC_API_URL` and
      `NEXT_PUBLIC_API_VERSION`. */
  function ResolveConfig(envUrl: Option<string>, envVersion: Option<string>): (c: Config)
    ensures c.baseUrl != "" && c.apiVersion != ""
    ensures c.baseUrl == (if envUrl.Some? && envUrl.value != "" then envUrl.value else DefaultBaseUrl)
    ensures c.apiVersion == (if envVersion.Some? && envVersion.value != "" then envVersion.value else DefaultApiVersion)
    ensures c.timeoutMs == 30000
  {
    // `env || fallback`: an unset variable and an empty one both give the fallback
    Config(OrElse(envUrl, DefaultBaseUrl), OrElse(envVersion, DefaultApiVersion), RequestTimeoutMs)
  }

  /** Everything of a request URL before the endpoint path. */
  function ApiPrefix(c: Config): string {
    c.baseUrl + "/api/" + c.apiVersion
  }

  /** `buildApiUrl(endpoint)`: plain concatenation, with no normalisation of
      slashes. */
  function BuildApiUrl(c: Config, endpoint: string): (url: string)
    ensures |url| == |ApiPrefix(c)| + |endpoint|
    ensures url[..|ApiPrefix(c)|] == ApiPrefix(c) && url[|ApiPrefix(c)|..] == endpoint
  {
    ApiPrefix(c) + endpoint
  }

  /** The endpoint part of a URL that `BuildApiUrl` produced for `c`. */
  function EndpointOfUrl(c: Config, url: string): Option<string> {
    var p := ApiPrefix(c);
    if |p| <= |url| && url[..|p|] == p then Some(url[|p|..]) else None
  }

  /** Building and then splitting off the prefix gives the endpoint back, and
      every URL that splits is the URL built from its endpoint. */
  lemma BuildApiUrlRoundTrip(c: Config, endpoint: string, url: string)
    ensures EndpointOfUrl(c, BuildApiUrl(c, endpoint)) == Some(endpoint)
    ensures EndpointOfUrl(c, url) == Some(endpoint) ==> url == BuildApiUrl(c, endpoint)
  {
    var p := ApiPrefix(c);
    if EndpointOfUrl(c, url) == Some(endpoint) {
      assert url == url[..|p|] + url[|p|..];
    }
  }

  lemma BuildApiUrlInjective(c: Config, e1: string, e2: string)
    requires BuildApiUrl(c, e1) == BuildApiUrl(c, e2)
    ensures e1 == e2
  {
    BuildApiUrlRoundTrip(c, e1, BuildApiUrl(c, e2));
  }

  /** Every endpoint path starts with its one '/' and has no other, so the
      version and the endpoint are joined by exactly one slash. */
  lemma EndpointPathShape(e: Endpoint)
    ensures |EndpointPath(e)| >= 2 && EndpointPath(e)[0] == '/' && EndpointPath(e)[1] != '/'
    ensures forall i | 1 <= i < |EndpointPath(e)| :: EndpointPath(e)[i] != '/'
  {
    var p := EndpointPath(e);
    forall i | 1 <= i < |p| ensures p[i] != '/' {
      match e
      case GeneratePassword => assert p[i] in "generate-password";
      case ValidatePassword => assert p[i] in "validate-password";
      case EncryptText => assert p[i] in "encrypt-text";
      case DecryptText => assert p[i] in "decrypt-text";
      case Statistics => assert p[i] in "statistics";
    }
  }

  lemma EndpointPathsDistinct(e1: Endpoint, e2: Endpoint)
    requires e1 != e2
    ensures EndpointPath(e1) != EndpointPath(e2)
  {
    // the letters after the slash already differ: g, v, e, d, s
    assert EndpointPath(e1)[1] != EndpointPath(e2)[1];
  }

  /** Distinct endpoints are requested at distinct URLs. */
  lemma EndpointUrlsDistinct(c: Config, e1: Endpoint, e2: Endpoint)
    requires e1 != e2
    ensures BuildApiUrl(c, EndpointPath(e1)) != BuildApiUrl(c, EndpointPath(e2))
  {
    EndpointPathsDistinct(e1, e2);
    if BuildApiUrl(c, EndpointPath(e1)) == BuildApiUrl(c, EndpointPath(e2)) {
      BuildApiUrlInjective(c, EndpointPath(e1), EndpointPath(e2));
    }
  }

  /** With neither variable set, the statistics endpoint is requested at
      http://localhost:3000/api/v1/statistics. */
  lemma DefaultStatisticsUrl()
    ensures BuildApiUrl(ResolveConfig(None, Some("")), EndpointPath(Statistics))
         == "http://localhost:3000/api/v1/statistics"
  {
    var c := ResolveConfig(None, Some(""));
    assert c.baseUrl == DefaultBaseUrl && c.apiVersion == DefaultApiVersion;
    assert ApiPrefix(c) == "http://localhost:3000/api/v1";
  }
}
