/** WeatherApp/ViewModels/WeatherViewModel.swift: the view model's published
    state and the operations on it (searching, clearing the error, loading
    the demo data), and the values the views read from it. The replies to the
    two requests a search makes are inputs. */
module ViewModel {
  import opened Wrappers
  import opened Text
  import opened Weather
  import opened Forecasts
  import opened DailyForecast
  import opened Service
  import opened Colors

  /** The five published fields, as one value. */
  datatype ViewState = ViewState(
    weather: Option<WeatherResponse>,
    forecast: Option<ForecastResponse>,
    isLoading: bool,
    errorMessage: Option<string>,
    searchText: string)

  const BlankSearchMessage: string := "Please enter a city name"

  /** The state searchWeather leaves behind, given the replies the weather and
      forecast requests get. Blank text only sets the message. Otherwise both
      requests run and are awaited weather first, so when both fail the
      weather error is the one reported; the loading flag set at the start is
      cleared at the end. */
  function SearchOutcome(s: ViewState, weatherReply: Exchange<WeatherResponse>,
                         forecastReply: Exchange<ForecastResponse>): ViewState
  {
    if IsBlank(s.searchText) then
      s.(errorMessage := Some(BlankSearchMessage))
    else
      var w := Fetch(CurrentWeather, weatherReply);
      var f := Fetch(FiveDayForecast, forecastReply);
      if w.Failure? then
        s.(isLoading := false, errorMessage := Some(ErrorDescription(w.error)))
      else if f.Failure? then
        s.(isLoading := false, errorMessage := Some(ErrorDescription(f.error)))
      else
        s.(weather := Some(w.value), forecast := Some(f.value), isLoading := false, errorMessage := None)
  }

  /** currentWeatherType: the category of the first condition, clear when
      there is no weather or no condition. */
  function CurrentWeatherTypeOf(weather: Option<WeatherResponse>): WeatherType {
    if weather.Some? && |weather.value.weather| > 0 then WeatherTypeOf(weather.value.weather[0].main)
    else Clear
  }

  /** The filtering half of compactMap: the present values, in order. */
  function Somes<T>(opts: seq<Option<T>>): (r: seq<T>)
    ensures |r| <= |opts|
  {
    if opts == [] then []
    else (if opts[0].Some? then [opts[0].value] else []) + Somes(opts[1..])
  }

  /** compactMap { Color(hex: $0) }: the colours that parse, in order. */
  function ParsedColors(hexes: seq<string>): (r: seq<Argb>)
    ensures |r| <= |hexes|
  {
    Somes(seq(|hexes|, i requires 0 <= i < |hexes| => HexColor(hexes[i])))
  }

  /** gradientColors: the theme colours of a category that parse. */
  function ThemeColors(t: WeatherType): seq<Argb> {
    ParsedColors(Weather.GradientColors(t))
  }

  /** formatHumidity: the integer followed by a percent sign. */
  function FormatHumidity(humidity: int): string {
    FormatInt(humidity) + "%"
  }

  class WeatherViewModel {
    var weather: Option<WeatherResponse>
    var forecast: Option<ForecastResponse>
    var isLoading: bool
    var errorMessage: Option<string>
    var searchText: string

    function State(): ViewState
      reads this
    {
      ViewState(weather, forecast, isLoading, errorMessage, searchText)
    }

    /** A fresh view model: nothing loaded, not loading, no message, no text. */
    constructor ()
      ensures State() == ViewState(None, None, false, None, "")
    {
      weather := None;
      forecast := None;
      isLoading := false;
      errorMessage := None;
      searchText := "";
    }

    /** searchWeather, with the replies its two requests get. `fetched` says
        whether the requests were made at all. */
    method SearchWeather(weatherReply: Exchange<WeatherResponse>, forecastReply: Exchange<ForecastResponse>)
      returns (fetched: bool)
      modifies this
      ensures fetched <==> !IsBlank(old(searchText))
      ensures State() == SearchOutcome(old(State()), weatherReply, forecastReply)
    {
      ghost var before := State();
      var blank := IsBlank(searchText);
      if blank {
        errorMessage := Some(BlankSearchMessage);
        assert State() == before.(errorMessage := Some(BlankSearchMessage));
        return false;
      }
      isLoading := true;
      errorMessage := None;
      var weatherResult := Fetch(CurrentWeather, weatherReply);
      var forecastResult := Fetch(FiveDayForecast, forecastReply);
      if weatherResult.Failure? {
        errorMessage := Some(ErrorDescription(weatherResult.error));
      } else if forecastResult.Failure? {
        errorMessage := Some(ErrorDescription(forecastResult.error));
      } else {
        weather := Some(weatherResult.value);
        forecast := Some(forecastResult.value);
      }
      isLoading := false;
      fetched := true;
    }

    /** clearError: drops the message and nothing else. */
    method ClearError()
      modifies this`errorMessage
      ensures State() == old(State()).(errorMessage := None)
    {
      errorMessage := None;
    }

    /** loadMockData, with what the random draws returned: the demo weather
        and forecast replace the current ones, and on a calendar at UTC
        (offset 0) the daily forecast becomes the five noon samples of the
        demo days. */
    method LoadMockData(draws: seq<MockDraw>)
      requires IsMockDraws(draws)
      modifies this`weather, this`forecast
      ensures State() == old(State()).(weather := Some(MockWeather()), forecast := Some(MockForecast(draws)))
      ensures var list := MockForecast(draws).list;
        DailyForecast(0) == [list[4], list[12], list[20], list[28], list[36]]
    {
      weather := Some(MockWeather());
      forecast := Some(MockForecast(draws));
      MockDailyForecast(draws);
    }

    /** dailyForecast, on a calendar `utcOffset` seconds from UTC. */
    function DailyForecast(utcOffset: int): seq<ForecastItem>
      reads this
    {
      DailyForecastOf(forecast, utcOffset)
    }

    function CurrentWeatherType(): WeatherType
      reads this
    {
      CurrentWeatherTypeOf(weather)
    }

    function GradientColors(): seq<Argb>
      reads this
    {
      ThemeColors(CurrentWeatherType())
    }
  }

  // ---------------------------------------------------------------------------
  // Properties of a search

  /** Blank text sets the message and leaves everything else as it was. */
  lemma BlankSearch(s: ViewState, weatherReply: Exchange<WeatherResponse>, forecastReply: Exchange<ForecastResponse>)
    requires IsBlank(s.searchText)
    ensures var t := SearchOutcome(s, weatherReply, forecastReply);
      && t.errorMessage == Some(BlankSearchMessage)
      && t.weather == s.weather && t.forecast == s.forecast
      && t.isLoading == s.isLoading && t.searchText == s.searchText
  {
  }

  /** Any other search ends not loading, and it ends without a message exactly
      when both requests succeed, in which case it shows their results. */
  lemma SearchCompletes(s: ViewState, weatherReply: Exchange<WeatherResponse>, forecastReply: Exchange<ForecastResponse>)
    requires !IsBlank(s.searchText)
    ensures var t := SearchOutcome(s, weatherReply, forecastReply);
      var w, f := Fetch(CurrentWeather, weatherReply), Fetch(FiveDayForecast, forecastReply);
      && !t.isLoading && t.searchText == s.searchText
      && (t.errorMessage.None? <==> w.Success? && f.Success?)
      && (w.Success? && f.Success? ==> t.weather == Some(w.value) && t.forecast == Some(f.value))
  {
  }

  /** A failed search keeps the previous weather and forecast and shows the
      description of the weather error if there is one, else of the forecast
      error. */
  lemma SearchFailureKeepsData(s: ViewState, weatherReply: Exchange<WeatherResponse>, forecastReply: Exchange<ForecastResponse>)
    requires !IsBlank(s.searchText)
    requires Fetch(CurrentWeather, weatherReply).Failure? || Fetch(FiveDayForecast, forecastReply).Failure?
    ensures var t := SearchOutcome(s, weatherReply, forecastReply);
      var w, f := Fetch(CurrentWeather, weatherReply), Fetch(FiveDayForecast, forecastReply);
      && t.weather == s.weather && t.forecast == s.forecast
      && t.errorMessage == Some(ErrorDescription(if w.Failure? then w.error else f.error))
      && IsNetworkDescription(t.errorMessage.value) == (if w.Failure? then w.error else f.error).NetworkError?
  {
    var w, f := Fetch(CurrentWeather, weatherReply), Fetch(FiveDayForecast, forecastReply);
    ErrorDescriptionDecodes(if w.Failure? then w.error else f.error, InvalidURL);
  }

  /** Searching for an unknown city: the weather request gets 404, and the
      message is the network-error prefix and the not-found text. */
  lemma SearchUnknownCity(s: ViewState, body: Result<WeatherResponse, Cause>, forecastReply: Exchange<ForecastResponse>)
    requires !IsBlank(s.searchText)
    ensures SearchOutcome(s, HttpResponse(404, body), forecastReply).errorMessage
      == Some(NetworkErrorPrefix + CityNotFoundMessage)
  {
    NotFoundDescriptions();
  }

  /** Text made only of spaces and line breaks trims to nothing and counts as
      blank. */
  lemma WhitespaceIsBlank()
    ensures IsBlank(" \t\n ") && Trim(" \t\n ", IsWhitespaceOrNewline) == []
  {
    BlankIffTrimsToEmpty(" \t\n ");
  }

  /** A name with spaces around it is not blank. */
  lemma PaddedNameIsNotBlank()
    ensures !IsBlank(" Paris ")
  {
    assert !IsWhitespaceOrNewline(" Paris "[1]);
  }

  // ---------------------------------------------------------------------------
  // Properties of the derived values

  /** Whatever the state, the background gradient the views read is two
      opaque colours: the theme of the first condition's category, or the
      clear-sky theme when there is no weather or no condition. */
  lemma ViewGradientIsTwoOpaque(weather: Option<WeatherResponse>)
    ensures var cs := ThemeColors(CurrentWeatherTypeOf(weather));
      && |cs| == 2 && cs[0].alpha == 255 && cs[1].alpha == 255
      && (weather.None? || weather.value.weather == [] ==> cs == ThemeColors(Clear))
  {
    ThemeColorsComplete(CurrentWeatherTypeOf(weather));
  }

  /** compactMap keeps exactly the present values. */
  lemma {:induction false} SomesMembers<T>(opts: seq<Option<T>>, x: T)
    ensures x in Somes(opts) <==> Some(x) in opts
  {
    if opts != [] {
      SomesMembers(opts[1..], x);
      assert opts == [opts[0]] + opts[1..];
    }
  }

  /** When every value is present, compactMap keeps them all, in order. */
  lemma {:induction false} SomesAllPresent<T>(opts: seq<Option<T>>)
    requires forall i :: 0 <= i < |opts| ==> opts[i].Some?
    ensures |Somes(opts)| == |opts|
    ensures forall i :: 0 <= i < |opts| ==> Somes(opts)[i] == opts[i].value
  {
    if opts != [] {
      var tail := opts[1..];
      SomesAllPresent(tail);
      assert Somes(opts) == [opts[0].value] + Somes(tail);
      forall i | 0 < i < |opts| ensures Somes(opts)[i] == opts[i].value {
        assert opts[i] == tail[i - 1];
      }
    }
  }

  /** When every string parses, the parsed colours are all of them, in order. */
  lemma ParsedColorsAllParse(hexes: seq<string>)
    requires forall i :: 0 <= i < |hexes| ==> HexColor(hexes[i]).Some?
    ensures |ParsedColors(hexes)| == |hexes|
    ensures forall i :: 0 <= i < |hexes| ==> ParsedColors(hexes)[i] == HexColor(hexes[i]).value
  {
    SomesAllPresent(seq(|hexes|, i requires 0 <= i < |hexes| => HexColor(hexes[i])));
  }

  /** Two strings that both parse become exactly their two colours. */
  lemma ParsedPair(hexes: seq<string>)
    requires |hexes| == 2 && HexColor(hexes[0]).Some? && HexColor(hexes[1]).Some?
    ensures ParsedColors(hexes) == [HexColor(hexes[0]).value, HexColor(hexes[1]).value]
  {
    ParsedColorsAllParse(hexes);
  }

  /** Every category yields both of its theme colours, opaque. */
  lemma ThemeColorsComplete(t: WeatherType)
    ensures var hexes := Weather.GradientColors(t);
      && |hexes| == 2 && HexColor(hexes[0]).Some? && HexColor(hexes[1]).Some?
      && ThemeColors(t) == [HexColor(hexes[0]).value, HexColor(hexes[1]).value]
      && ThemeColors(t)[0].alpha == 255 && ThemeColors(t)[1].alpha == 255
  {
    var hexes := Weather.GradientColors(t);
    Weather.GradientColorsWellFormed(t);
    HexColorLiteralParses(hexes[0]);
    HexColorLiteralParses(hexes[1]);
    ParsedPair(hexes);
  }

  /** The humidity text ends in a percent sign and gives the number back. */
  lemma FormatHumidityRoundTrip(humidity: int)
    ensures var s := FormatHumidity(humidity);
      |s| >= 2 && s[|s| - 1] == '%' && ParseInt(s[..|s| - 1]) == Some(humidity)
  {
    var s := FormatHumidity(humidity);
    assert s[..|s| - 1] == FormatInt(humidity);
    FormatIntRoundTrip(humidity);
  }
}
