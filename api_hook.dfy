/** The `useApiService` hook: five independent request lanes, each a
    `{data, isLoading, error}` triple that goes Idle -> Loading -> Success or
    Failure on every trigger. Each trigger runs as two steps, `Begin` and
    `Complete`; the network's answer is an input. */
module ApiHook {

  import opened Wrappers
  import opened ApiService
  import ApiConfig

  /** The `ApiState` triple of one lane. */
  datatype LaneState<T> = LaneState(data: Option<T>, isLoading: bool, error: Option<string>)

  /** Both absent while idle or in flight; at most one present otherwise. */
  ghost predicate Consistent<T>(s: LaneState<T>) {
    && (s.isLoading ==> s.data.None? && s.error.None?)
    && !(s.data.Some? && s.error.Some?)
  }

  /** Settled: not loading, and exactly one of `data` and `error` present. */
  ghost predicate Settled<T>(s: LaneState<T>) {
    !s.isLoading && (s.data.Some? <==> s.error.None?)
  }

  function Idle<T>(): LaneState<T> {
    LaneState(None, false, None)
  }

  function Loading<T>(): LaneState<T> {
    LaneState(None, true, None)
  }

  const NoDataMessage: string := "Resposta da API não contém dados"

  /** The checks the hook makes on a resolved envelope: `success: false`
      becomes an `ApiError` with status 400 whose message is `message ||
      error || "Erro desconhecido"`; a missing `data` one with status 500. */
  function CheckEnvelope<T>(env: Envelope<T>): (r: Result<T, ApiError>)
    ensures !env.success ==> r.Err? && r.error.status == 400 && r.error.message != ""
    ensures !env.success && Truthy(env.message) ==> r.error.message == env.message.value
    ensures !env.success && !Truthy(env.message) && Truthy(env.error) ==> r.error.message == env.error.value
    ensures !env.success && !Truthy(env.message) && !Truthy(env.error) ==> r.error.message == UnknownErrorMessage
    ensures env.success && env.data.None? ==> r == Err(ApiError(NoDataMessage, 500))
    ensures r.Ok? <==> env.success && env.data.Some?
    ensures r.Ok? ==> r.value == env.data.value
  {
    if !env.success then Err(ApiError(OrElse(env.message, OrElse(env.error, UnknownErrorMessage)), 400))
    else if env.data.None? then Err(ApiError(NoDataMessage, 500))
    else Ok(env.data.value)
  }

  /** The triple a lane settles on once its call has resolved or thrown:
      every failure becomes the lane's `error`, nothing is propagated. */
  function Settle<T>(r: Result<Envelope<T>, ApiError>): (s: LaneState<T>)
    ensures Settled(s) && Consistent(s)
    ensures s.data.Some? <==> r.Ok? && r.value.success && r.value.data.Some?
    ensures s.data.Some? ==> s.data == r.value.data
    ensures r.Err? ==> s.error == Some(r.error.message)
    ensures r.Ok? && !r.value.success ==> s.error == Some(OrElse(r.value.message, OrElse(r.value.error, UnknownErrorMessage)))
    ensures r.Ok? && r.value.success && r.value.data.None? ==> s.error == Some(NoDataMessage)
  {
    match r
    case Err(e) => LaneState(None, false, Some(e.message))
    case Ok(env) =>
      match CheckEnvelope(env)
      case Ok(data) => LaneState(Some(data), false, None)
      case Err(e) => LaneState(None, false, Some(e.message))
  }

  /** One lane of the hook: a state cell written through its setter. */
  class Lane<T> {
    var data: Option<T>
    var isLoading: bool
    var error: Option<string>

    function State(): LaneState<T>
      reads this
    {
      LaneState(data, isLoading, error)
    }

    ghost predicate Valid()
      reads this
    {
      Consistent(State())
    }

    constructor ()
      ensures Valid() && State() == Idle()
    {
      data, isLoading, error := None, false, None;
    }

    /** The first write of `handleApiRequest`. */
    method Begin()
      modifies this
      ensures Valid() && State() == Loading()
    {
      data, isLoading, error := None, true, None;
    }

    /** The final write of `handleApiRequest`, from the call's outcome. */
    method Complete(r: Result<Envelope<T>, ApiError>)
      modifies this
      ensures Valid() && Settled(State())
      ensures State() == Settle(r)
    {
      var s := Settle(r);
      data, isLoading, error := s.data, s.isLoading, s.error;
    }
  }

  /** The hook instance: five lanes and the configuration the facade uses. */
  class Hook {
    const config: ApiConfig.Config
    const passwordLane: Lane<GeneratePasswordResponse>
    const validationLane: Lane<ValidatePasswordResponse>
    const encryptionLane: Lane<EncryptResponse>
    const decryptionLane: Lane<DecryptResponse>
    const statisticsLane: Lane<StatisticsResponse>

    ghost function Lanes(): set<object>
      reads this
    {
      {passwordLane as object, validationLane as object, encryptionLane as object,
       decryptionLane as object, statisticsLane as object}
    }

    /** The five lanes are five different objects. */
    predicate Distinct()
      reads this
    {
      && passwordLane as object != validationLane && passwordLane as object != encryptionLane
      && passwordLane as object != decryptionLane && passwordLane as object != statisticsLane
      && validationLane as object != encryptionLane && validationLane as object != decryptionLane
      && validationLane as object != statisticsLane && encryptionLane as object != decryptionLane
      && encryptionLane as object != statisticsLane && decryptionLane as object != statisticsLane
    }

    ghost predicate Valid()
      reads this, Lanes()
    {
      && Distinct()
      && passwordLane.Valid() && validationLane.Valid() && encryptionLane.Valid()
      && decryptionLane.Valid() && statisticsLane.Valid()
    }

    /** Every lane starts as `{data: null, isLoading: false, error: null}`. */
    constructor (config: ApiConfig.Config)
      ensures Valid() && this.config == config
      ensures fresh(passwordLane) && fresh(validationLane) && fresh(encryptionLane)
      ensures fresh(decryptionLane) && fresh(statisticsLane)
      ensures passwordLane.State() == Idle() && validationLane.State() == Idle()
      ensures encryptionLane.State() == Idle() && decryptionLane.State() == Idle()
      ensures statisticsLane.State() == Idle()
    {
      var p := new Lane();
      var v := new Lane();
      var e := new Lane();
      var d := new Lane();
      var s := new Lane();
      this.config := config;
      passwordLane, validationLane, encryptionLane, decryptionLane, statisticsLane := p, v, e, d, s;
      new;
    }

    /** `generatePassword(length, includeSpecial)`. */
    method GeneratePassword(length: Option<int>, includeSpecial: Option<bool>, transport: Transport<GeneratePasswordResponse>)
      returns (url: string)
      requires Valid()
      modifies passwordLane
      ensures Valid()
      ensures url == CallUrl(config, ApiService.GeneratePassword(Some(PasswordParams(length, includeSpecial))))
      ensures passwordLane.State() == Settle(FetchOutcome(transport))
      ensures unchanged(validationLane, encryptionLane, decryptionLane, statisticsLane)
    {
      passwordLane.Begin();
      var r;
      url, r := Call(config, ApiService.GeneratePassword(Some(PasswordParams(length, includeSpecial))), transport);
      passwordLane.Complete(r);
    }

    /** `validatePassword(password)`. */
    method ValidatePassword(password: string, transport: Transport<ValidatePasswordResponse>)
      returns (url: string)
      requires Valid()
      modifies validationLane
      ensures Valid()
      ensures url == CallUrl(config, ApiService.ValidatePassword(password))
      ensures validationLane.State() == Settle(FetchOutcome(transport))
      ensures unchanged(passwordLane, encryptionLane, decryptionLane, statisticsLane)
    {
      validationLane.Begin();
      var r;
      url, r := Call(config, ApiService.ValidatePassword(password), transport);
      validationLane.Complete(r);
    }

    /** `encryptText(text)`. */
    method EncryptText(text: string, transport: Transport<EncryptResponse>)
      returns (url: string)
      requires Valid()
      modifies encryptionLane
      ensures Valid()
      ensures url == CallUrl(config, ApiService.EncryptText(text))
      ensures encryptionLane.State() == Settle(FetchOutcome(transport))
      ensures unchanged(passwordLane, validationLane, decryptionLane, statisticsLane)
    {
      encryptionLane.Begin();
      var r;
      url, r := Call(config, ApiService.EncryptText(text), transport);
      encryptionLane.Complete(r);
    }

    /** `decryptText(encryptedText)`. */
    method DecryptText(encryptedText: string, transport: Transport<DecryptResponse>)
      returns (url: string)
      requires Valid()
      modifies decryptionLane
      ensures Valid()
      ensures url == CallUrl(config, ApiService.DecryptText(encryptedText))
      ensures decryptionLane.State() == Settle(FetchOutcome(transport))
      ensures unchanged(passwordLane, validationLane, encryptionLane, statisticsLane)
    {
      decryptionLane.Begin();
      var r;
      url, r := Call(config, ApiService.DecryptText(encryptedText), transport);
      decryptionLane.Complete(r);
    }

    /** `getStatistics()`. */
    method GetStatistics(transport: Transport<StatisticsResponse>)
      returns (url: string)
      requires Valid()
      modifies statisticsLane
      ensures Valid()
      ensures url == CallUrl(config, ApiService.GetStatistics)
      ensures statisticsLane.State() == Settle(FetchOutcome(transport))
      ensures unchanged(passwordLane, validationLane, encryptionLane, decryptionLane)
    {
      statisticsLane.Begin();
      var r;
      url, r := Call(config, ApiService.GetStatistics, transport);
      statisticsLane.Complete(r);
    }
  }

  // ---------------------------------------------------------------- scenarios

  /** The timeout's abort leaves the lane with the timeout message. */
  lemma TimeoutSettlesWithMessage<T>(transport: Transport<T>)
    requires transport == Rejected(ThrownError("AbortError", "signal is aborted without reason"))
    ensures Settle(FetchOutcome(transport)) == LaneState(None, false, Some(TimeoutMessage))
  {
  }

  /** A 400 response whose body is `{message: "bad input"}`. */
  lemma BadRequestMessage<T>(transport: Transport<T>)
    requires transport == Responded(400, "Bad Request", Json(Envelope(false, None, Some("bad input"), None)))
    ensures Settle(FetchOutcome(transport)).error == Some("bad input")
  {
  }

  /** A 200 response whose body is `{success: false, error: "denied"}`. */
  lemma DeniedEnvelope<T>(transport: Transport<T>)
    requires transport == Responded(200, "OK", Json(Envelope(false, None, None, Some("denied"))))
    ensures Settle(FetchOutcome(transport)) == LaneState(None, false, Some("denied"))
  {
  }
}
