/** The HTTP client wrapper `fetchApi`, its error handling and the facade of
    five operations. The network is an input: a `Transport` value says how
    the request ended (a response with its status and parsed body, or a
    rejection such as the abort raised by the timeout). */
module ApiService {

  import opened Wrappers
  import opened Decimal
  import UriComponent
  import ApiConfig

  // ---------------------------------------------------------------- payloads

  datatype GeneratePasswordParamsEcho = GeneratePasswordParamsEcho(length: int, includeSpecial: bool)
  datatype GeneratePasswordResponse = GeneratePasswordResponse(
    password: string, strength: string, score: int, timestamp: string, params: GeneratePasswordParamsEcho)
  datatype ValidatePasswordResponse = ValidatePasswordResponse(
    valid: bool, strength: string, score: int, feedback: string, timestamp: string)
  datatype EncryptResponse = EncryptResponse(
    encryptedText: string, originalLength: int, encryptedLength: int, timestamp: string)
  datatype DecryptResponse = DecryptResponse(decryptedText: string, length: int, timestamp: string)
  datatype StrengthDistribution = StrengthDistribution(weak: int, medium: int, strong: int, veryStrong: int)
  datatype ServerInfo = ServerInfo(uptime: int, memoryUsage: map<string, int>, nodeVersion: string)
  datatype StatisticsResponse = StatisticsResponse(
    passwordsGenerated: int, passwordsValidated: int, textEncrypted: int,
    strengthDistribution: StrengthDistribution, timestamp: string, serverInfo: ServerInfo)

  /** The envelope every endpoint answers with; `None` is an absent field.
      Error bodies are read through the same `message` and `error` fields. */
  datatype Envelope<T> = Envelope(success: bool, data: Option<T>, message: Option<string>, error: Option<string>)

  datatype ApiError = ApiError(message: string, status: int)

  // ---------------------------------------------------------------- query string

  datatype ParamValue = Str(s: string) | Num(n: int) | Bool(b: bool) | Undefined

  /** A parameter object, as the list of its entries in `Object.entries` order. */
  type Params = seq<(string, ParamValue)>

  /** The text a defined value stands for: `String(value)`. */
  function ValueText(v: ParamValue): string
    requires !v.Undefined?
  {
    match v
    case Str(s) => s
    case Num(n) => IntToString(n)
    case Bool(b) => if b then "true" else "false"
  }

  /** One `key=value` pair: booleans literally, everything else through
      `encodeURIComponent`; the key is written as it is. */
  function RenderPair(key: string, v: ParamValue): string
    requires !v.Undefined?
  {
    if v.Bool? then key + "=" + ValueText(v) else key + "=" + UriComponent.Encode(ValueText(v))
  }

  /** The rendered pairs of the defined entries, in entry order. */
  function RenderedPairs(ps: Params): (r: seq<string>)
    ensures forall i | 0 <= i < |r| :: '=' in r[i]
  {
    if ps == [] then []
    else if ps[0].1.Undefined? then RenderedPairs(ps[1..])
    else [RenderPair(ps[0].0, ps[0].1)] + RenderedPairs(ps[1..])
  }

  function Join(parts: seq<string>): string {
    if parts == [] then ""
    else if |parts| == 1 then parts[0]
    else parts[0] + "&" + Join(parts[1..])
  }

  /** The query string `fetchApi` appends after '?'. */
  function QueryString(ps: Params): string {
    Join(RenderedPairs(ps))
  }

  /** The defined entries as (key, text) pairs: what the query string is
      meant to carry. */
  function TextPairs(ps: Params): (r: seq<(string, string)>)
    ensures |r| <= |ps|
  {
    if ps == [] then []
    else if ps[0].1.Undefined? then TextPairs(ps[1..])
    else [(ps[0].0, ValueText(ps[0].1))] + TextPairs(ps[1..])
  }

  predicate HasDefined(ps: Params) {
    exists i | 0 <= i < |ps| :: !ps[i].1.Undefined?
  }

  // ------------------------------------------------ reading a query string back

  /** Splits at every '&'. */
  function Split(s: string): (r: seq<string>)
    ensures |r| >= 1
  {
    if s == [] then [""]
    else
      var rest := Split(s[1..]);
      if s[0] == '&' then [""] + rest else [[s[0]] + rest[0]] + rest[1..]
  }

  /** Splits a pair at its first '='. */
  function SplitPair(p: string): (string, string)
  {
    if p == [] then ("", "")
    else if p[0] == '=' then ("", p[1..])
    else var kv := SplitPair(p[1..]); ([p[0]] + kv.0, kv.1)
  }

  function DecodePairs(parts: seq<string>): Option<seq<(string, string)>>
  {
    if parts == [] then Some([])
    else
      var kv := SplitPair(parts[0]);
      match UriComponent.Decode(kv.1)
      case None => None
      case Some(v) =>
        match DecodePairs(parts[1..])
        case None => None
        case Some(rest) => Some([(kv.0, v)] + rest)
  }

  /** A reader for the query strings `fetchApi` writes. */
  function ParseQuery(q: string): Option<seq<(string, string)>> {
    if q == "" then Some([]) else DecodePairs(Split(q))
  }

  // ---------------------------------------------------------------- fetchApi

  /** What `response.json()` gives: the parsed body, or the message of the
      SyntaxError it throws. */
  datatype Parsed<T> = Json(body: Envelope<T>) | Malformed(reason: string)

  /** Something thrown inside `fetchApi`'s try block. */
  datatype Thrown =
    | ThrownApiError(apiError: ApiError)
    | ThrownError(name: string, message: string)
    | ThrownNonError

  /** How the request ended. */
  datatype Transport<T> =
    | Responded(status: int, statusText: string, body: Parsed<T>)
    | Rejected(thrown: Thrown)

  /** `response.ok`. */
  predicate IsOkStatus(status: int) {
    200 <= status <= 299
  }

  function StatusMessage(status: int, statusText: string): (m: string)
    ensures |m| >= 5 && m[..5] == "Erro "
  {
    "Erro " + IntToString(status) + ": " + statusText
  }

  const TimeoutMessage: string := "A requisição excedeu o tempo limite"
  const UnknownErrorMessage: string := "Erro desconhecido"

  /** The message `handleApiError` settles on: the body's `message`, else
      its `error`, else "Erro <status>: <statusText>", which is also used
      when the body does not parse. */
  function ResponseErrorMessage<T>(status: int, statusText: string, body: Parsed<T>): (m: string)
    ensures m != ""
    ensures body.Json? && Truthy(body.body.message) ==> m == body.body.message.value
    ensures body.Json? && !Truthy(body.body.message) && Truthy(body.body.error) ==> m == body.body.error.value
    ensures body.Malformed? || (!Truthy(body.body.message) && !Truthy(body.body.error))
            ==> m == StatusMessage(status, statusText)
  {
    match body
    case Json(errorData) => OrElse(errorData.message, OrElse(errorData.error, StatusMessage(status, statusText)))
    case Malformed(_) => StatusMessage(status, statusText)
  }

  /** `handleApiError`: the `ApiError` a non-ok response is turned into. */
  method HandleApiError<T>(status: int, statusText: string, body: Parsed<T>) returns (e: ApiError)
    ensures e == ApiError(ResponseErrorMessage(status, statusText, body), status)
  {
    var errorMessage := "Erro desconhecido ao conectar com a API";
    match body {
      case Json(errorData) =>
        errorMessage := OrElse(errorData.message, OrElse(errorData.error, StatusMessage(status, statusText)));
      case Malformed(_) =>
        errorMessage := StatusMessage(status, statusText);
    }
    e := ApiError(errorMessage, status);
  }

  /** The catch block of `fetchApi`: what leaves it for each thrown value. */
  function CatchToApiError(t: Thrown): (e: ApiError)
    ensures t.ThrownApiError? ==> e == t.apiError
    ensures t.ThrownError? && t.name == "AbortError" ==> e == ApiError(TimeoutMessage, 408)
    ensures t.ThrownError? && t.name != "AbortError" ==> e == ApiError(t.message, 500)
    ensures t.ThrownNonError? ==> e == ApiError(UnknownErrorMessage, 500)
  {
    match t
    case ThrownApiError(e) => e
    case ThrownError(name, message) =>
      if name == "AbortError" then ApiError(TimeoutMessage, 408) else ApiError(message, 500)
    case ThrownNonError => ApiError(UnknownErrorMessage, 500)
  }

  /** What `fetchApi` returns or throws, given how the request ended: an ok
      response's body untouched; a non-ok response's `ApiError` with the HTTP
      status; an unparsable ok body as status 500; a rejection through the
      catch block. */
  function FetchOutcome<T>(transport: Transport<T>): (r: Result<Envelope<T>, ApiError>)
    ensures r.Ok? <==> transport.Responded? && IsOkStatus(transport.status) && transport.body.Json?
    ensures r.Ok? ==> r.value == transport.body.body
    ensures transport.Responded? && !IsOkStatus(transport.status)
            ==> r == Err(ApiError(ResponseErrorMessage(transport.status, transport.statusText, transport.body), transport.status))
    ensures transport.Responded? && IsOkStatus(transport.status) && transport.body.Malformed?
            ==> r == Err(ApiError(transport.body.reason, 500))
    ensures transport.Rejected? ==> r == Err(CatchToApiError(transport.thrown))
  {
    match transport
    case Rejected(thrown) => Err(CatchToApiError(thrown))
    case Responded(status, statusText, body) =>
      if !IsOkStatus(status) then
        Err(CatchToApiError(ThrownApiError(ApiError(ResponseErrorMessage(status, statusText, body), status))))
      else match body
        case Json(data) => Ok(data)
        case Malformed(reason) => Err(CatchToApiError(ThrownError("SyntaxError", reason)))
  }

  /** The URL `fetchApi` requests: the endpoint's URL, followed by '?' and
      the query string exactly when some parameter is defined. */
  function RequestUrl(c: ApiConfig.Config, endpoint: string, params: Option<Params>): string {
    var base := ApiConfig.BuildApiUrl(c, endpoint);
    if params.Some? && HasDefined(params.value) then base + "?" + QueryString(params.value) else base
  }

  /** What a request URL is made of: the endpoint's URL, left bare exactly
      when no parameter is defined, and otherwise '?' and the query string. */
  lemma RequestUrlShape(c: ApiConfig.Config, endpoint: string, params: Option<Params>)
    ensures var base := ApiConfig.BuildApiUrl(c, endpoint);
      var url := RequestUrl(c, endpoint, params);
      && |base| <= |url| && url[..|base|] == base
      && (url == base <==> params.None? || !HasDefined(params.value))
      && (url != base ==> url[|base|] == '?' && url[|base| + 1..] == QueryString(params.value))
  {
    var base := ApiConfig.BuildApiUrl(c, endpoint);
    if params.Some? && HasDefined(params.value) {
      var url := base + "?" + QueryString(params.value);
      assert |url| > |base|;
      assert url[..|base|] == base && url[|base|] == '?' && url[|base| + 1..] == QueryString(params.value);
    }
  }

  /** `fetchApi(endpoint, params)`: the URL it requests, and its result. */
  method FetchApi<T>(c: ApiConfig.Config, endpoint: string, params: Option<Params>, transport: Transport<T>)
    returns (url: string, r: Result<Envelope<T>, ApiError>)
    ensures url == RequestUrl(c, endpoint, params)
    ensures r == FetchOutcome(transport)
  {
    url := ApiConfig.BuildApiUrl(c, endpoint);
    if params.Some? {
      var queryString := QueryString(params.value);
      QueryStringEmpty(params.value);
      if queryString != "" {
        url := url + "?" + queryString;
      }
    }
    match transport {
      case Rejected(thrown) =>
        r := Err(CatchToApiError(thrown));
      case Responded(status, statusText, body) =>
        if !IsOkStatus(status) {
          var e := HandleApiError(status, statusText, body);
          r := Err(CatchToApiError(ThrownApiError(e)));
        } else {
          match body {
            case Json(data) => r := Ok(data);
            case Malformed(reason) => r := Err(CatchToApiError(ThrownError("SyntaxError", reason)));
          }
        }
    }
  }

  // ---------------------------------------------------------------- facade

  datatype PasswordParams = PasswordParams(length: Option<int>, special: Option<bool>)

  /** One call of the `apiService` facade with its arguments. */
  datatype FacadeCall =
    | GeneratePassword(passwordParams: Option<PasswordParams>)
    | ValidatePassword(password: string)
    | EncryptText(text: string)
    | DecryptText(encryptedText: string)
    | GetStatistics

  function CallEndpoint(call: FacadeCall): ApiConfig.Endpoint {
    match call
    case GeneratePassword(_) => ApiConfig.GeneratePassword
    case ValidatePassword(_) => ApiConfig.ValidatePassword
    case EncryptText(_) => ApiConfig.EncryptText
    case DecryptText(_) => ApiConfig.DecryptText
    case GetStatistics => ApiConfig.Statistics
  }

  function NumOrUndefined(n: Option<int>): ParamValue {
    if n.Some? then Num(n.value) else Undefined
  }

  function BoolOrUndefined(b: Option<bool>): ParamValue {
    if b.Some? then Bool(b.value) else Undefined
  }

  /** The parameter object the facade hands to `fetchApi`. */
  function CallParams(call: FacadeCall): Option<Params> {
    match call
    case GeneratePassword(p) =>
      if p.Some? then Some([("length", NumOrUndefined(p.value.length)), ("special", BoolOrUndefined(p.value.special))])
      else None
    case ValidatePassword(password) => Some([("password", Str(password))])
    case EncryptText(text) => Some([("text", Str(text))])
    case DecryptText(encryptedText) => Some([("encryptedText", Str(encryptedText))])
    case GetStatistics => None
  }

  /** The URL a facade operation requests: `fetchApi`'s URL for its own
      endpoint and its own parameters. */
  function CallUrl(c: ApiConfig.Config, call: FacadeCall): string {
    RequestUrl(c, ApiConfig.EndpointPath(CallEndpoint(call)), CallParams(call))
  }

  /** A facade operation requests its endpoint's URL, bare exactly when it has
      no defined parameter (always for `getStatistics`), and otherwise
      followed by '?' and the query string of its own parameters. */
  lemma CallUrlShape(c: ApiConfig.Config, call: FacadeCall)
    ensures var base := ApiConfig.BuildApiUrl(c, ApiConfig.EndpointPath(CallEndpoint(call)));
      var url := CallUrl(c, call);
      && |base| <= |url| && url[..|base|] == base
      && (url == base <==> CallParams(call).None? || !HasDefined(CallParams(call).value))
      && (call.GetStatistics? ==> url == base)
      && (url != base ==> CallParams(call).Some? && url[|base|] == '?' && url[|base| + 1..] == QueryString(CallParams(call).value))
  {
    RequestUrlShape(c, ApiConfig.EndpointPath(CallEndpoint(call)), CallParams(call));
  }

  /** A facade operation: `fetchApi` on its own endpoint; the result is
      passed on untouched. */
  method Call<T>(c: ApiConfig.Config, call: FacadeCall, transport: Transport<T>)
    returns (url: string, r: Result<Envelope<T>, ApiError>)
    ensures url == CallUrl(c, call)
    ensures r == FetchOutcome(transport)
  {
    var endpoint := ApiConfig.EndpointPath(CallEndpoint(call));
    url, r := FetchApi(c, endpoint, CallParams(call), transport);
  }

  // ---------------------------------------------------------------- proofs

  lemma CallQueryRoundTrip(call: FacadeCall)
    requires CallParams(call).Some?
    ensures ParseQuery(QueryString(CallParams(call).value)) == Some(TextPairs(CallParams(call).value))
  {
    CallParamsPlainKeys(call);
    QueryRoundTrip(CallParams(call).value);
  }

  lemma CallParamsPlainKeys(call: FacadeCall)
    requires CallParams(call).Some?
    ensures PlainKeys(CallParams(call).value)
  {
    var ps := CallParams(call).value;
    match call {
      case GeneratePassword(_) =>
        LetterKey("length");
        LetterKey("special");
      case ValidatePassword(_) =>
        LetterKey("password");
      case EncryptText(_) =>
        LetterKey("text");
      case DecryptText(_) =>
        LetterKey("encryptedText");
    }
  }

  lemma LetterKey(k: string)
    requires forall j | 0 <= j < |k| :: 'a' <= k[j] <= 'z' || 'A' <= k[j] <= 'Z'
    ensures '&' !in k && '=' !in k
  {
  }

  lemma {:induction false} RenderedPairsEmpty(ps: Params)
    ensures RenderedPairs(ps) == [] <==> !HasDefined(ps)
    decreases |ps|
  {
    if ps != [] {
      RenderedPairsEmpty(ps[1..]);
      if !ps[0].1.Undefined? {
        assert RenderedPairs(ps) != [];
      } else {
        assert HasDefined(ps) <==> HasDefined(ps[1..]) by {
          if HasDefined(ps) {
            var i :| 0 <= i < |ps| && !ps[i].1.Undefined?;
            assert !ps[1..][i - 1].1.Undefined?;
          }
          if HasDefined(ps[1..]) {
            var i :| 0 <= i < |ps[1..]| && !ps[1..][i].1.Undefined?;
            assert !ps[i + 1].1.Undefined?;
          }
        }
      }
    }
  }

  /** The query string is empty exactly when no value is defined; every
      pair holds a '=', so a defined value never renders as "". */
  lemma QueryStringEmpty(ps: Params)
    ensures QueryString(ps) == "" <==> !HasDefined(ps)
  {
    RenderedPairsEmpty(ps);
    var parts := RenderedPairs(ps);
    if parts != [] {
      assert '=' in parts[0];
      if |parts| > 1 {
        assert Join(parts) == parts[0] + "&" + Join(parts[1..]);
      }
    }
  }

  lemma {:induction false} SplitNoSeparator(p: string)
    requires '&' !in p
    ensures Split(p) == [p]
    decreases |p|
  {
    if p != [] {
      SplitNoSeparator(p[1..]);
      assert [p[0]] + p[1..] == p;
    }
  }

  lemma {:induction false} SplitAtSeparator(p: string, t: string)
    requires '&' !in p
    ensures Split(p + "&" + t) == [p] + Split(t)
    decreases |p|
  {
    if p == [] {
      assert (p + "&" + t)[1..] == t;
    } else {
      assert (p + "&" + t)[1..] == p[1..] + "&" + t;
      SplitAtSeparator(p[1..], t);
      assert [p[0]] + p[1..] == p;
    }
  }

  /** Splitting a joined list gives the list back when no part holds '&'. */
  lemma {:induction false} SplitJoin(parts: seq<string>)
    requires parts != []
    requires forall i | 0 <= i < |parts| :: '&' !in parts[i]
    ensures Split(Join(parts)) == parts
    decreases |parts|
  {
    if |parts| == 1 {
      SplitNoSeparator(parts[0]);
    } else {
      SplitAtSeparator(parts[0], Join(parts[1..]));
      SplitJoin(parts[1..]);
      assert [parts[0]] + parts[1..] == parts;
    }
  }

  lemma {:induction false} SplitPairAtFirst(k: string, v: string)
    requires '=' !in k
    ensures SplitPair(k + "=" + v) == (k, v)
    decreases |k|
  {
    if k == [] {
      assert (k + "=" + v)[1..] == v;
    } else {
      assert (k + "=" + v)[1..] == k[1..] + "=" + v;
      SplitPairAtFirst(k[1..], v);
      assert [k[0]] + k[1..] == k;
    }
  }

  /** Keys the query string can carry: they are written unencoded, so they
      must not hold the separators. */
  predicate PlainKeys(ps: Params) {
    forall i | 0 <= i < |ps| :: '&' !in ps[i].0 && '=' !in ps[i].0
  }

  lemma PairRoundTrip(key: string, v: ParamValue)
    requires !v.Undefined? && '&' !in key && '=' !in key
    ensures '&' !in RenderPair(key, v)
    ensures SplitPair(RenderPair(key, v)).0 == key
    ensures UriComponent.Decode(SplitPair(RenderPair(key, v)).1) == Some(ValueText(v))
  {
    if v.Bool? {
      UriComponent.EncodeKeepsUnescaped(ValueText(v));
      SplitPairAtFirst(key, UriComponent.Encode(ValueText(v)));
      UriComponent.DecodeEncode(ValueText(v));
      assert ValueText(v) == UriComponent.Encode(ValueText(v));
      assert '&' !in ValueText(v);
    } else {
      UriComponent.EncodeHasNoSeparator(ValueText(v));
      SplitPairAtFirst(key, UriComponent.Encode(ValueText(v)));
      UriComponent.DecodeEncode(ValueText(v));
    }
  }

  lemma {:induction false} DecodeRenderedPairs(ps: Params)
    requires PlainKeys(ps)
    ensures forall i | 0 <= i < |RenderedPairs(ps)| :: '&' !in RenderedPairs(ps)[i]
    ensures DecodePairs(RenderedPairs(ps)) == Some(TextPairs(ps))
    decreases |ps|
  {
    if ps != [] {
      assert PlainKeys(ps[1..]) by {
        forall i | 0 <= i < |ps[1..]| ensures '&' !in ps[1..][i].0 && '=' !in ps[1..][i].0 {
          assert ps[1..][i] == ps[i + 1];
        }
      }
      DecodeRenderedPairs(ps[1..]);
      if !ps[0].1.Undefined? {
        PairRoundTrip(ps[0].0, ps[0].1);
        var parts := RenderedPairs(ps);
        assert parts[1..] == RenderedPairs(ps[1..]);
      }
    }
  }

  /** Reading back the query string of `ps` gives the defined entries with
      their texts, each once, in entry order; undefined entries are gone. */
  lemma QueryRoundTrip(ps: Params)
    requires PlainKeys(ps)
    ensures ParseQuery(QueryString(ps)) == Some(TextPairs(ps))
  {
    DecodeRenderedPairs(ps);
    var parts := RenderedPairs(ps);
    if parts == [] {
      assert TextPairs(ps) == [] by { TextPairsEmpty(ps); }
    } else {
      QueryStringEmpty(ps);
      RenderedPairsEmpty(ps);
      SplitJoin(parts);
    }
  }

  lemma {:induction false} TextPairsEmpty(ps: Params)
    requires RenderedPairs(ps) == []
    ensures TextPairs(ps) == []
    decreases |ps|
  {
    if ps != [] {
      TextPairsEmpty(ps[1..]);
    }
  }

  /** A key is carried exactly when its entry's value is defined, and then
      with that value's text. */
  lemma {:induction false} TextPairsMembership(ps: Params, key: string, text: string)
    ensures (key, text) in TextPairs(ps) <==>
            exists i | 0 <= i < |ps| :: ps[i].0 == key && !ps[i].1.Undefined? && ValueText(ps[i].1) == text
    decreases |ps|
  {
    if ps != [] {
      TextPairsMembership(ps[1..], key, text);
      var p := (key, text);
      if exists i | 0 <= i < |ps[1..]| :: ps[1..][i].0 == key && !ps[1..][i].1.Undefined? && ValueText(ps[1..][i].1) == text {
        var i :| 0 <= i < |ps[1..]| && ps[1..][i].0 == key && !ps[1..][i].1.Undefined? && ValueText(ps[1..][i].1) == text;
        assert ps[i + 1] == ps[1..][i];
      }
      if exists i | 0 <= i < |ps| :: ps[i].0 == key && !ps[i].1.Undefined? && ValueText(ps[i].1) == text {
        var i :| 0 <= i < |ps| && ps[i].0 == key && !ps[i].1.Undefined? && ValueText(ps[i].1) == text;
        if i > 0 {
          assert ps[1..][i - 1] == ps[i];
        }
      }
    }
  }

  /** The password lane's request for `generatePassword(12, true)`. */
  lemma GeneratePasswordQuery()
    ensures QueryString(CallParams(GeneratePassword(Some(PasswordParams(Some(12), Some(true))))).value)
         == "length=12" + "&" + "special=true"
  {
    var ps := CallParams(GeneratePassword(Some(PasswordParams(Some(12), Some(true))))).value;
    assert ps == [("length", Num(12)), ("special", Bool(true))];
    TwoDefinedPairs("length", Num(12), "special", Bool(true));
    LengthTwelve();
    assert RenderPair("special", Bool(true)) == "special=true";
  }

  lemma LengthTwelve()
    ensures RenderPair("length", Num(12)) == "length=12"
  {
    assert IntToString(12) == "12" by {
      assert NatToDecimal(12) == NatToDecimal(1) + [DigitChar(2)];
    }
    UriComponent.EncodeKeepsUnescaped("12");
  }

  /** Two defined entries give their pieces joined by one '&'. */
  lemma TwoDefinedPairs(k1: string, v1: ParamValue, k2: string, v2: ParamValue)
    requires !v1.Undefined? && !v2.Undefined?
    ensures QueryString([(k1, v1), (k2, v2)]) == RenderPair(k1, v1) + "&" + RenderPair(k2, v2)
  {
    var ps := [(k1, v1), (k2, v2)];
    assert ps[1..] == [(k2, v2)];
    assert ps[1..][1..] == [];
    assert RenderedPairs(ps[1..]) == [RenderPair(k2, v2)];
    assert RenderedPairs(ps) == [RenderPair(k1, v1)] + [RenderPair(k2, v2)];
    var parts := [RenderPair(k1, v1), RenderPair(k2, v2)];
    assert parts[1..] == [RenderPair(k2, v2)];
    assert Join(parts[1..]) == RenderPair(k2, v2);
    assert Join(parts) == RenderPair(k1, v1) + "&" + RenderPair(k2, v2);
  }

  /** One defined entry gives just its piece. */
  lemma OneDefinedPair(k: string, v: ParamValue)
    requires !v.Undefined?
    ensures QueryString([(k, v)]) == RenderPair(k, v)
  {
    assert [(k, v)][1..] == [];
    assert RenderedPairs([(k, v)]) == [RenderPair(k, v)];
  }

  /** `generatePassword` with neither option set requests the bare URL. */
  lemma GeneratePasswordNoOptions()
    ensures QueryString(CallParams(GeneratePassword(Some(PasswordParams(None, None)))).value) == ""
  {
  }

  /** `validatePassword(p)` sends `password=` and the encoding of `p`. */
  lemma ValidatePasswordQuery(password: string)
    ensures QueryString(CallParams(ValidatePassword(password)).value) == "password=" + UriComponent.Encode(password)
  {
    assert CallParams(ValidatePassword(password)).value == [("password", Str(password))];
    OneDefinedPair("password", Str(password));
  }

  /** Each facade operation has its own endpoint. */
  lemma CallEndpointsDistinct(c1: FacadeCall, c2: FacadeCall)
    requires c1.GeneratePassword? != c2.GeneratePassword? || c1.ValidatePassword? != c2.ValidatePassword?
          || c1.EncryptText? != c2.EncryptText? || c1.DecryptText? != c2.DecryptText?
    ensures ApiConfig.EndpointPath(CallEndpoint(c1)) != ApiConfig.EndpointPath(CallEndpoint(c2))
  {
    ApiConfig.EndpointPathsDistinct(CallEndpoint(c1), CallEndpoint(c2));
  }

  /** Two calls to one endpoint that request the same URL with a query carry
      the same parameters: the URL determines what was sent. */
  lemma CallUrlCarriesParameters(c: ApiConfig.Config, call1: FacadeCall, call2: FacadeCall)
    requires CallEndpoint(call1) == CallEndpoint(call2)
    requires CallParams(call1).Some? && HasDefined(CallParams(call1).value)
    requires CallParams(call2).Some? && HasDefined(CallParams(call2).value)
    requires CallUrl(c, call1) == CallUrl(c, call2)
    ensures TextPairs(CallParams(call1).value) == TextPairs(CallParams(call2).value)
  {
    var base := ApiConfig.BuildApiUrl(c, ApiConfig.EndpointPath(CallEndpoint(call1)));
    assert CallUrl(c, call1)[|base| + 1..] == QueryString(CallParams(call1).value);
    assert CallUrl(c, call2)[|base| + 1..] == QueryString(CallParams(call2).value);
    CallQueryRoundTrip(call1);
    CallQueryRoundTrip(call2);
  }

  /** A single defined text parameter reads as its key and text. */
  lemma SingleTextPair(k: string, t: string)
    ensures HasDefined([(k, Str(t))])
    ensures TextPairs([(k, Str(t))]) == [(k, t)]
  {
    assert [(k, Str(t))][1..] == [];
    assert !([(k, Str(t))][0].1.Undefined?);
  }

  /** `validatePassword`, `encryptText` and `decryptText` request different
      URLs for different arguments. */
  lemma TextCallUrlInjective(c: ApiConfig.Config, call1: FacadeCall, call2: FacadeCall)
    requires call1.ValidatePassword? || call1.EncryptText? || call1.DecryptText?
    requires CallEndpoint(call1) == CallEndpoint(call2)
    requires CallUrl(c, call1) == CallUrl(c, call2)
    ensures call1 == call2
  {
    match call1
    case ValidatePassword(p1) =>
      var p2 := call2.password;
      SingleTextPair("password", p1);
      SingleTextPair("password", p2);
      CallUrlCarriesParameters(c, call1, call2);
    case EncryptText(t1) =>
      var t2 := call2.text;
      SingleTextPair("text", t1);
      SingleTextPair("text", t2);
      CallUrlCarriesParameters(c, call1, call2);
    case DecryptText(t1) =>
      var t2 := call2.encryptedText;
      SingleTextPair("encryptedText", t1);
      SingleTextPair("encryptedText", t2);
      CallUrlCarriesParameters(c, call1, call2);
  }
}
