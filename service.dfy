/** WeatherApp/Services/WeatherService.swift without its input and output:
    what each of the three requests makes of the reply it gets, the error
    descriptions users read, and the demo payloads. The network exchange
    itself is an input (`Exchange`), so the request functions are total. */
module Service {
  import opened Wrappers
  import opened Text
  import opened Weather
  import opened Forecasts
  import opened DailyForecast

  // ---------------------------------------------------------------------------
  // Errors

  /** An error raised below the service: the NSError it builds in domain "API"
      for a bad status, or anything URLSession or JSONDecoder throws. Each
      carries its localizedDescription. */
  datatype Cause =
    | ApiError(domain: string, code: int, message: string)
    | SystemError(message: string)

  datatype WeatherServiceError =
    | InvalidURL
    | NoData
    | DecodingError
    | NetworkError(cause: Cause)
    | InvalidResponse

  const NetworkErrorPrefix: string := "Network error: "

  /** errorDescription: a fixed text per case, the cause's own description
      after a prefix for network errors. */
  function ErrorDescription(e: WeatherServiceError): string {
    match e
    case InvalidURL => "Invalid URL"
    case NoData => "No data received"
    case DecodingError => "Failed to decode weather data"
    case NetworkError(cause) => NetworkErrorPrefix + cause.message
    case InvalidResponse => "Invalid response from server"
  }

  /** Whether a description reads as a network error. */
  predicate IsNetworkDescription(d: string) {
    |d| >= |NetworkErrorPrefix| && d[..|NetworkErrorPrefix|] == NetworkErrorPrefix
  }

  /** A description tells network errors from the others, and for a network
      error gives back the cause's description; the four fixed texts differ. */
  lemma ErrorDescriptionDecodes(e: WeatherServiceError, f: WeatherServiceError)
    ensures IsNetworkDescription(ErrorDescription(e)) <==> e.NetworkError?
    ensures e.NetworkError? ==> ErrorDescription(e)[|NetworkErrorPrefix|..] == e.cause.message
    ensures !e.NetworkError? && !f.NetworkError? && ErrorDescription(e) == ErrorDescription(f) ==> e == f
  {
    var d := ErrorDescription(e);
    match e
    case NoData => assert d[1] != NetworkErrorPrefix[1];
    case NetworkError(_) =>
    case _ => assert d[0] != NetworkErrorPrefix[0];
  }

  // ---------------------------------------------------------------------------
  // Replies

  /** The three requests of the service. */
  datatype Endpoint = Geocoding | CurrentWeather | FiveDayForecast

  // Each message is two sentences: what went wrong, then what to do about it.
  const InvalidKeyMessage: string := "API key is invalid or not activated." + " Please check your OpenWeatherMap API key."
  const CityNotFoundMessage: string := "City not found." + " Please check the city name."
  const RateLimitMessage: string := "API rate limit exceeded." + " Please try again later."
  const HttpErrorPrefix: string := "HTTP Error: "

  function HttpErrorMessage(status: int): string {
    HttpErrorPrefix + FormatInt(status)
  }

  /** How a request can end, as the service observes it: the URL does not
      parse, the transfer throws, the response is not HTTP, or an HTTP status
      arrives with a body that the decoder turns into a value or rejects. */
  datatype Exchange<T> =
    | MalformedURL
    | TransportFailure(cause: Cause)
    | NonHttpResponse
    | HttpResponse(status: int, body: Result<T, Cause>)

  /** The error thrown for a status other than 200. Only the weather and
      forecast requests single out 404 and 429. */
  function StatusError(endpoint: Endpoint, status: int): WeatherServiceError {
    var message :=
      if status == 401 then InvalidKeyMessage
      else if status == 404 && endpoint != Geocoding then CityNotFoundMessage
      else if status == 429 && endpoint != Geocoding then RateLimitMessage
      else HttpErrorMessage(status);
    NetworkError(ApiError("API", status, message))
  }

  /** One request: searchCities, fetchWeather or fetchForecast, given the
      exchange. A WeatherServiceError raised inside the `do` block is rethrown
      as it is; anything else, a decoding failure included, becomes a network
      error. */
  function Fetch<T>(endpoint: Endpoint, x: Exchange<T>): (r: Result<T, WeatherServiceError>)
    ensures r.Success? <==> x.HttpResponse? && x.status == 200 && x.body.Success?
    ensures r.Success? ==> r.value == x.body.value
    ensures r.Failure? ==> r.error != DecodingError && r.error != NoData
  {
    match x
    case MalformedURL => Failure(InvalidURL)
    case TransportFailure(cause) => Failure(NetworkError(cause))
    case NonHttpResponse => Failure(InvalidResponse)
    case HttpResponse(status, body) =>
      if status != 200 then Failure(StatusError(endpoint, status))
      else match body
        case Success(v) => Success(v)
        case Failure(cause) => Failure(NetworkError(cause))
  }

  /** Every failing status yields an API network error carrying that status;
      its message is chosen by the status alone, except that geocoding has no
      special text for 404 and 429, and every status without a special text
      gets "HTTP Error: " and its numeral. */
  lemma StatusErrorTable<T>(endpoint: Endpoint, status: int, body: Result<T, Cause>)
    requires status != 200
    ensures Fetch(endpoint, HttpResponse(status, body)) == Failure(StatusError(endpoint, status))
    ensures var e := StatusError(endpoint, status);
      && e.NetworkError? && e.cause.ApiError? && e.cause.domain == "API" && e.cause.code == status
      && (e.cause.message == InvalidKeyMessage <==> status == 401)
      && (e.cause.message == CityNotFoundMessage <==> status == 404 && endpoint != Geocoding)
      && (e.cause.message == RateLimitMessage <==> status == 429 && endpoint != Geocoding)
      && (e.cause.message[..|HttpErrorPrefix|] == HttpErrorPrefix <==> e.cause.message == HttpErrorMessage(status))
      && (status != 401 && (endpoint == Geocoding || (status != 404 && status != 429))
          ==> e.cause.message == HttpErrorMessage(status))
  {
    assert HttpErrorMessage(status)[0] == 'H';
    assert InvalidKeyMessage[4] != RateLimitMessage[4];
  }

  /** A 200 reply whose body does not decode fails as a network error with the
      decoder's own description, never as DecodingError; other failures
      before any status arrives keep their own case. */
  lemma FailuresBeforeStatus<T>(endpoint: Endpoint, cause: Cause)
    ensures Fetch<T>(endpoint, HttpResponse(200, Failure(cause))) == Failure(NetworkError(cause))
    ensures Fetch<T>(endpoint, TransportFailure(cause)) == Failure(NetworkError(cause))
    ensures Fetch<T>(endpoint, MalformedURL) == Failure(InvalidURL)
    ensures Fetch<T>(endpoint, NonHttpResponse) == Failure(InvalidResponse)
    ensures ErrorDescription(Fetch<T>(endpoint, HttpResponse(200, Failure(cause))).error) == NetworkErrorPrefix + cause.message
  {
  }

  /** The status of an "HTTP Error" message can be read back from it. */
  lemma HttpErrorCarriesStatus(status: int)
    ensures var m := HttpErrorMessage(status);
      m[..|HttpErrorPrefix|] == HttpErrorPrefix && ParseInt(m[|HttpErrorPrefix|..]) == Some(status)
  {
    FormatIntRoundTrip(status);
    assert HttpErrorMessage(status)[|HttpErrorPrefix|..] == FormatInt(status);
  }

  /** What a user reads when the city is unknown: the weather request's own
      text, but only the status code from geocoding. */
  lemma NotFoundDescriptions()
    ensures ErrorDescription(StatusError(CurrentWeather, 404)) == NetworkErrorPrefix + CityNotFoundMessage
    ensures ErrorDescription(StatusError(FiveDayForecast, 404)) == NetworkErrorPrefix + CityNotFoundMessage
    ensures ErrorDescription(StatusError(Geocoding, 404)) == NetworkErrorPrefix + HttpErrorPrefix + "404"
  {
    assert FormatInt(404) == "404" by {
      assert DecimalDigits(404) == DecimalDigits(40) + "4";
      assert DecimalDigits(40) == "40";
    }
  }

  /** The rate-limit text where the request has one, the status otherwise. */
  lemma RateLimitDescriptions()
    ensures ErrorDescription(StatusError(FiveDayForecast, 429)) == NetworkErrorPrefix + RateLimitMessage
    ensures ErrorDescription(StatusError(Geocoding, 429)) == NetworkErrorPrefix + HttpErrorPrefix + "429"
  {
    assert FormatInt(429) == "429" by {
      assert DecimalDigits(429) == DecimalDigits(42) + "9";
      assert DecimalDigits(42) == "42";
    }
  }

  /** A server error shows the generic text with its status. */
  lemma ServerErrorDescription()
    ensures ErrorDescription(StatusError(CurrentWeather, 500)) == NetworkErrorPrefix + HttpErrorPrefix + "500"
  {
    assert FormatInt(500) == "500" by {
      assert DecimalDigits(500) == DecimalDigits(50) + "0";
      assert DecimalDigits(50) == "50";
    }
  }

  // ---------------------------------------------------------------------------
  // Demo payloads

  /** mockWeatherResponse: clear sky over London; its floating-point fields are
      not part of the model. */
  function MockWeather(): (r: WeatherResponse)
    ensures r.name == "London" && r.sys.country == "GB"
    ensures |r.weather| == 1 && WeatherTypeOf(r.weather[0].main) == Clear
  {
    assert Lowercased("Clear") == "clear";
    WeatherResponse(
      [WeatherCondition(800, "Clear", "clear sky", "01d")],
      MainWeather(1013, 65),
      "London",
      SystemInfo("GB", 1640995200, 1641027600),
      Wind(180),
      Clouds(20),
      10000,
      1640995200)
  }

  const MockStart: int := 1640995200
  const MockSampleCount: nat := 40

  /** The randomly drawn integer and string fields of one mock sample. */
  datatype MockDraw = MockDraw(humidity: int, conditionId: int, main: string, clouds: int, windDeg: int)

  /** The ranges the demo draws from. */
  predicate IsMockDraw(d: MockDraw) {
    && 40 <= d.humidity <= 80
    && 800 <= d.conditionId <= 804
    && (d.main == "Clear" || d.main == "Clouds" || d.main == "Rain")
    && 0 <= d.clouds <= 100
    && 0 <= d.windDeg <= 360
  }

  /** One draw per demo sample, each within the demo's ranges. */
  predicate IsMockDraws(draws: seq<MockDraw>) {
    |draws| == MockSampleCount && forall i :: 0 <= i < |draws| ==> IsMockDraw(draws[i])
  }

  function MockItem(index: int, d: MockDraw): ForecastItem {
    ForecastItem(
      MockStart + index * 3600 * 3,
      MainWeather(1013, d.humidity),
      [WeatherCondition(d.conditionId, d.main, "weather description", "01d")],
      Clouds(d.clouds),
      Wind(d.windDeg),
      10000,
      "2024-01-01 12:00:00")
  }

  /** mockForecastResponse: forty 3-hourly samples for London, given what the
      random draws returned. */
  function MockForecast(draws: seq<MockDraw>): (r: ForecastResponse)
    requires IsMockDraws(draws)
    ensures |r.list| == MockSampleCount
    ensures r.city.name == "London" && r.city.timezone == 0
  {
    ForecastResponse(
      seq(MockSampleCount, i requires 0 <= i < MockSampleCount => MockItem(i, draws[i])),
      ForecastCity(2643743, "London", "GB", 8908081, 0, 1640995200, 1641027600))
  }

  /** The mock samples are three hours apart from midnight UTC on 1 January
      2022, so their times strictly increase, and each carries its draw, so
      its humidity and condition lie in the demo's ranges. */
  lemma MockForecastTimes(draws: seq<MockDraw>)
    requires IsMockDraws(draws)
    ensures var list := MockForecast(draws).list;
      && (forall i :: 0 <= i < |list| ==> list[i].dt == 1640995200 + 10800 * i)
      && (forall i, j :: 0 <= i < j < |list| ==> list[i].dt < list[j].dt)
      && (forall i :: 0 <= i < |list| ==> list[i].main.humidity == draws[i].humidity)
      && (forall i :: 0 <= i < |list| ==> 40 <= list[i].main.humidity <= 80)
      && (forall i :: 0 <= i < |list| ==> |list[i].weather| == 1 && 800 <= list[i].weather[0].id <= 804)
  {
  }

  /** On a calendar at UTC (offset 0) the demo forecast covers five whole days
      and reduces to their five noon samples. */
  lemma MockDailyForecast(draws: seq<MockDraw>)
    requires IsMockDraws(draws)
    ensures var list := MockForecast(draws).list;
      DailyForecastOfList(list, 0) == [list[4], list[12], list[20], list[28], list[36]]
  {
    var list := MockForecast(draws).list;
    assert WholeDaysFromMidnight(list, 0, MockStart, 5);
    WholeDaysPickNoon(list, 0, MockStart, 5);
  }
}
