/** Current-conditions records and the condition category with its theme
    tables (WeatherApp/Models/Weather.swift). Floating-point fields (temperatures,
    wind speed) are not part of this model. */
module Weather {
  import opened Wrappers
  import opened Text

  /** One entry of the API's `weather` array. */
  datatype WeatherCondition = WeatherCondition(id: int, main: string, description: string, icon: string)

  datatype MainWeather = MainWeather(pressure: int, humidity: int)

  datatype SystemInfo = SystemInfo(country: string, sunrise: int, sunset: int)

  datatype Wind = Wind(deg: int)

  datatype Clouds = Clouds(all: int)

  /** The decoded current-weather payload. */
  datatype WeatherResponse = WeatherResponse(
    weather: seq<WeatherCondition>,
    main: MainWeather,
    name: string,
    sys: SystemInfo,
    wind: Wind,
    clouds: Clouds,
    visibility: int,
    dt: int)

  /** The six display categories, in declaration order. */
  datatype WeatherType = Clear | Cloudy | Rainy | Snowy | Stormy | Foggy

  const AllWeatherTypes: seq<WeatherType> := [Clear, Cloudy, Rainy, Snowy, Stormy, Foggy]

  function RawValue(t: WeatherType): string {
    match t
    case Clear => "Clear"
    case Cloudy => "Cloudy"
    case Rainy => "Rainy"
    case Snowy => "Snowy"
    case Stormy => "Stormy"
    case Foggy => "Foggy"
  }

  /** The enum's synthesised `init?(rawValue:)`. */
  function WeatherTypeFromRaw(raw: string): Option<WeatherType> {
    if raw == "Clear" then Some(Clear)
    else if raw == "Cloudy" then Some(Cloudy)
    else if raw == "Rainy" then Some(Rainy)
    else if raw == "Snowy" then Some(Snowy)
    else if raw == "Stormy" then Some(Stormy)
    else if raw == "Foggy" then Some(Foggy)
    else None
  }

  /** WeatherCondition.weatherType: the category of the API's `main` string,
      compared after lower-casing, with Clear for anything unrecognised. */
  function WeatherTypeOf(main: string): WeatherType {
    var m := Lowercased(main);
    if m == "clear" then Clear
    else if m == "clouds" then Cloudy
    else if m == "rain" || m == "drizzle" then Rainy
    else if m == "snow" then Snowy
    else if m == "thunderstorm" then Stormy
    else if m == "mist" || m == "fog" || m == "haze" then Foggy
    else Clear
  }

  /** The lower-case keywords the mapping recognises. */
  const Keywords: set<string> :=
    {"clear", "clouds", "rain", "drizzle", "snow", "thunderstorm", "mist", "fog", "haze"}

  function IconName(t: WeatherType): string {
    match t
    case Clear => "sun.max.fill"
    case Cloudy => "cloud.fill"
    case Rainy => "cloud.rain.fill"
    case Snowy => "cloud.snow.fill"
    case Stormy => "cloud.bolt.rain.fill"
    case Foggy => "cloud.fog.fill"
  }

  function GradientColors(t: WeatherType): seq<string> {
    match t
    case Clear => ["#FFD700", "#FFA500"]
    case Cloudy => ["#87CEEB", "#B0C4DE"]
    case Rainy => ["#4682B4", "#708090"]
    case Snowy => ["#F0F8FF", "#E6E6FA"]
    case Stormy => ["#2F4F4F", "#696969"]
    case Foggy => ["#D3D3D3", "#A9A9A9"]
  }

  /** "#" followed by exactly six hexadecimal digits. */
  predicate IsHexColorLiteral(s: string) {
    |s| == 7 && s[0] == '#' && AllHexDigits(s[1..])
  }

  // ---------------------------------------------------------------------------
  // Properties

  /** The mapping ignores letter case: upper-casing or lower-casing the input
      does not change the category, so "RAIN" and "rain" map alike. */
  lemma WeatherTypeIgnoresCase(main: string)
    ensures WeatherTypeOf(Uppercased(main)) == WeatherTypeOf(main)
    ensures WeatherTypeOf(Lowercased(main)) == WeatherTypeOf(main)
  {
    LowercasedIgnoresUppercasing(main);
    LowercasedIdempotent(main);
  }

  /** Which inputs reach each category, both ways round: a recognised keyword
      selects its category, and everything else falls back to Clear. */
  lemma WeatherTypePreimages(main: string)
    ensures WeatherTypeOf(main) == Cloudy <==> Lowercased(main) == "clouds"
    ensures WeatherTypeOf(main) == Rainy <==> Lowercased(main) in {"rain", "drizzle"}
    ensures WeatherTypeOf(main) == Snowy <==> Lowercased(main) == "snow"
    ensures WeatherTypeOf(main) == Stormy <==> Lowercased(main) == "thunderstorm"
    ensures WeatherTypeOf(main) == Foggy <==> Lowercased(main) in {"mist", "fog", "haze"}
    ensures WeatherTypeOf(main) == Clear <==> Lowercased(main) == "clear" || Lowercased(main) !in Keywords
  {
  }

  /** Rain, cloud and storm keywords in any letter case. */
  lemma WeatherTypeExamples()
    ensures WeatherTypeOf("RAIN") == Rainy && WeatherTypeOf("Drizzle") == Rainy
    ensures WeatherTypeOf("Clouds") == Cloudy && WeatherTypeOf("Thunderstorm") == Stormy
  {
    assert Lowercased("RAIN") == "rain";
    assert Lowercased("Drizzle") == "drizzle";
    assert Lowercased("Clouds") == "clouds";
    assert Lowercased("Thunderstorm") == "thunderstorm";
  }

  /** The fog keywords, and the fallback for anything unrecognised. */
  lemma FoggyAndFallbackExamples()
    ensures WeatherTypeOf("Mist") == Foggy && WeatherTypeOf("FOG") == Foggy && WeatherTypeOf("haze") == Foggy
    ensures WeatherTypeOf("Tornado") == Clear && WeatherTypeOf("") == Clear
  {
    assert Lowercased("Mist") == "mist";
    assert Lowercased("FOG") == "fog";
    assert Lowercased("haze") == "haze";
    assert Lowercased("Tornado") == "tornado";
  }

  /** The six cases, each listed once. */
  lemma AllWeatherTypesEnumerated()
    ensures |AllWeatherTypes| == 6
    ensures forall t: WeatherType :: t in AllWeatherTypes
    ensures forall i, j :: 0 <= i < j < |AllWeatherTypes| ==> AllWeatherTypes[i] != AllWeatherTypes[j]
  {
    forall t: WeatherType ensures t in AllWeatherTypes {
      match t
      case Clear => assert AllWeatherTypes[0] == t;
      case Cloudy => assert AllWeatherTypes[1] == t;
      case Rainy => assert AllWeatherTypes[2] == t;
      case Snowy => assert AllWeatherTypes[3] == t;
      case Stormy => assert AllWeatherTypes[4] == t;
      case Foggy => assert AllWeatherTypes[5] == t;
    }
  }

  /** Raw values and `init?(rawValue:)` are inverse to each other. */
  lemma RawValueRoundTrip(t: WeatherType, raw: string)
    ensures WeatherTypeFromRaw(RawValue(t)) == Some(t)
    ensures WeatherTypeFromRaw(raw).Some? ==> RawValue(WeatherTypeFromRaw(raw).value) == raw
  {
  }

  /** Every category has its own icon. */
  lemma IconNamesDistinct(s: WeatherType, t: WeatherType)
    ensures IconName(s) == IconName(t) <==> s == t
  {
  }

  /** Every category has exactly two gradient stops, each "#RRGGBB". */
  lemma GradientColorsWellFormed(t: WeatherType)
    ensures |GradientColors(t)| == 2
    ensures forall i :: 0 <= i < 2 ==> IsHexColorLiteral(GradientColors(t)[i])
  {
  }
}
