# WeatherApp core in Dafny

A model of the logic of a SwiftUI weather client that talks to the
OpenWeatherMap API. The model covers:

- The models: `WeatherResponse`, `ForecastResponse`, `City`, the condition
  category `WeatherType` with its icon and gradient tables, and the mapping
  from the API's `main` string to a category.
- What the service makes of the reply to each of its three requests: the
  HTTP status to error mapping, the error descriptions users read, and the
  demo payloads.
- The view model's state machine: searching, clearing the error and loading
  the demo data.
- The values the views derive from that state: the daily forecast (one
  sample per local day, the one closest to noon, in date order), the current
  category, the gradient colours, and the humidity text.
- `Color(hex:)`: trimming, hexadecimal scanning and the 12-, 24- and 32-bit
  layouts, on integer channels.

Modules follow the source files:

| module | file | models |
|---|---|---|
| `Wrappers` | `wrappers.dfy` | `Option` and `Result` |
| `Text` | `text.dfy` | the Foundation string operations the core uses: `trimmingCharacters(in:)`, `lowercased()`, integer interpolation, hexadecimal digits |
| `Weather` | `weather.dfy` | `Models/Weather.swift` |
| `Cities` | `city.dfy` | `Models/City.swift` |
| `Forecasts` | `forecast.dfy` | `Models/Forecast.swift` and the calendar arithmetic on its dates |
| `DailyForecast` | `daily_forecast.dfy` | `dailyForecast` of `ViewModels/WeatherViewModel.swift` |
| `Colors` | `hex_color.dfy` | the `Color(hex:)` extension in `ViewModels/WeatherViewModel.swift` |
| `Service` | `service.dfy` | `Services/WeatherService.swift` |
| `ViewModel` | `view_model.dfy` | the `WeatherViewModel` class |

The network is not modelled. Each request's outcome, as the service sees it,
is an input `Exchange`:

- the URL does not parse;
- the transfer throws;
- the response is not HTTP;
- or a status arrives with a body that either decodes or fails to decode.

`Service.Fetch` then reproduces the service's `switch` and `catch` clauses.
`WeatherViewModel.SearchWeather` takes the two replies as parameters and
updates the fields the way `searchWeather()` does. When both requests fail,
the weather error is the one shown, because the tuple `await` reads the
weather task first.

The daily forecast is modelled step by step, as the source computes it:

- grouping by local start of day;
- `min(by:)` with "strictly closer to noon" as the order, so ties keep the
  earlier sample;
- `compactMap`;
- sorting by date.

It is then characterised independently: one entry per local day present in
the input, no day twice, each entry the first sample of its day closest to
noon, strictly ascending in time. The result does not depend on the order
in which the grouping hands out its days. On the demo forecast (forty
3-hourly samples from midnight UTC, 1 January 2022), on a calendar at UTC
(offset 0), this yields exactly the five 12:00 samples. The source uses the
device's calendar. At some offsets the picks differ, for example at UTC+2
and UTC−5 (see "## Left out").

Where the declared error type and the code differ, the model follows the
code. `WeatherServiceError` declares `decodingError` and `noData`, but no
path raises them:

- A 200 reply whose body does not decode is rethrown as a `networkError`
  carrying the decoder's own description.
- Every status other than 200 is a `networkError` wrapping an `NSError` in
  domain "API". There are no separate authentication, not-found or
  rate-limit cases.
- The geocoding request singles out only 401. 404 and 429 get the generic
  "HTTP Error: <status>" text there.

## Model

| member | source | states |
|---|---|---|
| Text.Trim | WeatherApp/ViewModels/WeatherViewModel.swift:111 | `trimmingCharacters(in:)`: drops the leading and trailing characters of the set, keeping the slice between |
| Text.Lowercased | WeatherApp/Models/Weather.swift:30 | `lowercased()` on ASCII letters: every upper-case letter becomes its lower-case letter, everything else is kept |
| Text.FormatInt | WeatherApp/ViewModels/WeatherViewModel.swift:104 | integer interpolation: an optional minus sign followed by the decimal digits without leading zeros |
| Text.IsBlank | WeatherApp/ViewModels/WeatherViewModel.swift:23 | the blank guard: every character is whitespace or a line break |
| Text.TrimIsSlice | WeatherApp/ViewModels/WeatherViewModel.swift:111 | trimming keeps one contiguous slice whose cut-away characters are all stripped and whose ends are kept; when non-empty it is the only such slice |
| Text.TrimEmptyIff | WeatherApp/ViewModels/WeatherViewModel.swift:23 | trimming gives the empty string exactly when every character belongs to the trimmed set |
| Text.BlankIffTrimsToEmpty | WeatherApp/ViewModels/WeatherViewModel.swift:23 | text trims to nothing under whitespace-and-newlines exactly when it is made of whitespace and line breaks |
| Text.LowercasedIdempotent | WeatherApp/Models/Weather.swift:30 | lower-casing twice is lower-casing once |
| Text.LowercasedIgnoresUppercasing | WeatherApp/Models/Weather.swift:30 | lower-casing an upper-cased string equals lower-casing the original |
| Text.DecimalDigitsRoundTrip | WeatherApp/ViewModels/WeatherViewModel.swift:104 | the decimal digits of a natural number read back as that number |
| Text.FormatIntRoundTrip | WeatherApp/ViewModels/WeatherViewModel.swift:104 | the interpolated text of any integer, sign included, parses back to it |
| Text.HexValueBound | WeatherApp/ViewModels/WeatherViewModel.swift:112-113 | n hexadecimal digits have a value below 16^n |
| Text.HexValueAppend | WeatherApp/ViewModels/WeatherViewModel.swift:112-113 | the value of concatenated digit strings is the first value shifted by the second's length plus the second value |
| Weather.WeatherTypeOf | WeatherApp/Models/Weather.swift:29-46 | `weatherType`: the category of the lower-cased `main` string, Clear for anything unrecognised |
| Weather.RawValue | WeatherApp/Models/Weather.swift:85-91 | the raw value of each case, its capitalised name |
| Weather.WeatherTypeFromRaw | WeatherApp/Models/Weather.swift:85-91 | `init?(rawValue:)`: the case whose raw value is the string, nil for any other string |
| Weather.IconName | WeatherApp/Models/Weather.swift:93-108 | `iconName`: the SF Symbol name of each category |
| Weather.GradientColors | WeatherApp/Models/Weather.swift:110-125 | `gradientColors`: the two hexadecimal theme stops of each category |
| Weather.WeatherTypeIgnoresCase | WeatherApp/Models/Weather.swift:29-46 | upper- or lower-casing the API string does not change its category |
| Weather.WeatherTypePreimages | WeatherApp/Models/Weather.swift:29-46 | for each category, exactly which lower-cased strings reach it; every unrecognised string falls back to Clear |
| Weather.WeatherTypeExamples | WeatherApp/Models/Weather.swift:35-40 | "RAIN" and "Drizzle" are rainy, "Clouds" cloudy, "Thunderstorm" stormy |
| Weather.FoggyAndFallbackExamples | WeatherApp/Models/Weather.swift:41-44 | "Mist", "FOG" and "haze" are foggy; "Tornado" and "" are clear |
| Weather.AllWeatherTypesEnumerated | WeatherApp/Models/Weather.swift:85-91 | the case list has six distinct entries and contains every case |
| Weather.RawValueRoundTrip | WeatherApp/Models/Weather.swift:85-91 | raw values and the raw-value initialiser are inverse to each other |
| Weather.IconNamesDistinct | WeatherApp/Models/Weather.swift:93-108 | two categories share an icon name exactly when they are the same category |
| Weather.GradientColorsWellFormed | WeatherApp/Models/Weather.swift:110-125 | every category has two gradient stops, each "#" and six hexadecimal digits |
| Cities.City.DisplayName | WeatherApp/Models/City.swift:28-33 | `displayName`: name, then the state when present and non-empty, then the country, joined by ", " |
| Cities.DisplayNameShapes | WeatherApp/Models/City.swift:28-33 | "name, state, country" for a non-empty state, "name, country" otherwise; an empty state counts as absent |
| Cities.DisplayNameFrame | WeatherApp/Models/City.swift:28-33 | the display name starts with the name and ", " and ends with the country |
| Cities.DisplayNameRecoversName | WeatherApp/Models/City.swift:28-33 | a comma-free name is the text before the first comma of the display name |
| Cities.DisplayNameExamples | WeatherApp/Models/City.swift:28-33 | "Paris, FR", "Paris, Texas, US", and "X, Y" for an empty state |
| Forecasts.NoonOf | WeatherApp/ViewModels/WeatherViewModel.swift:70-71 | `date(bySettingHour: 12, minute: 0, second: 0, of:)`: 12:00 local time on the sample's own day |
| Forecasts.StartOfDay | WeatherApp/ViewModels/WeatherViewModel.swift:63-65 | the start of day is a local midnight at most a day before the time |
| Forecasts.NoonDistance | WeatherApp/ViewModels/WeatherViewModel.swift:70-74 | the distance from a sample to its own day's noon is at most twelve hours |
| Forecasts.StartOfDayMonotone | WeatherApp/ViewModels/WeatherViewModel.swift:63-65 | later times never have an earlier start of day |
| Forecasts.EarlierDayEarlierTime | WeatherApp/ViewModels/WeatherViewModel.swift:78 | a sample on an earlier local day is earlier in time |
| DailyForecast.ItemsOn | WeatherApp/ViewModels/WeatherViewModel.swift:63-65 | the group of one day: the samples whose local start of day is that day, in input order |
| DailyForecast.MinByFrom | WeatherApp/ViewModels/WeatherViewModel.swift:69-77 | the fold of `min(by:)`: the running minimum is replaced only by a sample strictly closer to noon |
| DailyForecast.ClosestToNoon | WeatherApp/ViewModels/WeatherViewModel.swift:69-77 | `min(by:)` on one group: nil for an empty group, otherwise the fold from its first sample |
| DailyForecast.Picks | WeatherApp/ViewModels/WeatherViewModel.swift:67-77 | `compactMap` over the groups: the non-nil minimum of each key's group, in key order |
| DailyForecast.DailyForecastOfList | WeatherApp/ViewModels/WeatherViewModel.swift:63-78 | grouping, picking and sorting a forecast list |
| DailyForecast.DailyForecastOf | WeatherApp/ViewModels/WeatherViewModel.swift:58-79 | `dailyForecast`: empty without a forecast, otherwise the reduction of its list |
| DailyForecast.DayKeys | WeatherApp/ViewModels/WeatherViewModel.swift:63-65 | the group keys are distinct and are exactly the days of the samples |
| DailyForecast.MinByFromOnGroup | WeatherApp/ViewModels/WeatherViewModel.swift:69-77 | the running minimum either keeps its seed, none being strictly closer, or ends on the first sample of the day that is closest and strictly closer than the seed |
| DailyForecast.ClosestToNoonOfDay | WeatherApp/ViewModels/WeatherViewModel.swift:67-77 | the minimum of a non-empty day group exists and is the first sample of that day closest to noon |
| DailyForecast.PicksAreNearestNoon | WeatherApp/ViewModels/WeatherViewModel.swift:67-77 | the compactMap has one pick per key, in key order, each its day's first closest-to-noon sample |
| DailyForecast.InsertByDate | WeatherApp/ViewModels/WeatherViewModel.swift:78 | inserting into a date-sorted list keeps it sorted and adds exactly that sample |
| DailyForecast.SortByDate | WeatherApp/ViewModels/WeatherViewModel.swift:78 | the sort result is ordered by date and a permutation of its input |
| DailyForecast.SortKeepsDistinctDays | WeatherApp/ViewModels/WeatherViewModel.swift:78 | sorting picks of distinct days keeps the days distinct |
| DailyForecast.SortedDistinctIsStrict | WeatherApp/ViewModels/WeatherViewModel.swift:78 | date-sorted samples with no day twice are strictly ascending in time and in day |
| DailyForecast.PicksOfAllDays | WeatherApp/ViewModels/WeatherViewModel.swift:63-77 | before sorting there is one pick per distinct day, each on its key's day and the right pick for it |
| DailyForecast.DailyForecastCharacterised | WeatherApp/ViewModels/WeatherViewModel.swift:58-79 | one entry per local day present, strictly ascending in time and day, each the first sample of its day closest to noon, every input day covered |
| DailyForecast.NoonPickUnique | WeatherApp/ViewModels/WeatherViewModel.swift:67-77 | a day has exactly one pick: two samples that are both its first closest-to-noon sample are the same |
| DailyForecast.StrictlyAscendingUnique | WeatherApp/ViewModels/WeatherViewModel.swift:78 | two lists strictly ascending in time with the same samples are the same list |
| DailyForecast.SortedPicksOf | WeatherApp/ViewModels/WeatherViewModel.swift:67-78 | for any list of distinct days, the sorted picks are strictly ascending and are exactly the picks of those days |
| DailyForecast.KeyOrderIrrelevant | WeatherApp/ViewModels/WeatherViewModel.swift:63-78 | any order of the grouping's keys, each once, gives the same daily forecast |
| DailyForecast.DailyForecastEmpty | WeatherApp/ViewModels/WeatherViewModel.swift:59 | no forecast, or an empty list, gives an empty daily forecast |
| DailyForecast.DailyForecastNonEmpty | WeatherApp/ViewModels/WeatherViewModel.swift:58-79 | the daily forecast is empty exactly when the list is |
| DailyForecast.WholeDayPickIsNoonSample | WeatherApp/ViewModels/WeatherViewModel.swift:67-77 | on whole days of 3-hourly samples from midnight, a day's pick is its 12:00 sample |
| DailyForecast.WholeDaysReduction | WeatherApp/ViewModels/WeatherViewModel.swift:58-79 | on n whole days, any list with the characterising properties is the n noon samples in order |
| DailyForecast.WholeDaysPickNoon | WeatherApp/ViewModels/WeatherViewModel.swift:58-79 | n whole days of 3-hourly samples from midnight reduce to samples 4, 12, 20, … in order |
| DailyForecast.OneDayPicksNoonSample | WeatherApp/ViewModels/WeatherViewModel.swift:58-79 | one whole day, 00:00 to 21:00, reduces to its 12:00 sample alone |
| Colors.Channels | WeatherApp/ViewModels/WeatherViewModel.swift:115-123 | the 12-, 24- and 32-bit channel layouts by trimmed length, nil for any other length |
| Colors.HexColor | WeatherApp/ViewModels/WeatherViewModel.swift:110-124 | `Color(hex:)`: trim, scan the leading hexadecimal digits, and lay out the channels by trimmed length |
| Colors.ScanHexInt64 | WeatherApp/ViewModels/WeatherViewModel.swift:112-113 | the scanning loop returns the value of the leading run of hexadecimal digits |
| Colors.ColorFromHex | WeatherApp/ViewModels/WeatherViewModel.swift:110-124 | trim, scan and dispatch give the specified colour, and every channel of a parsed colour is in 0..255 |
| Colors.HexColorLengths | WeatherApp/ViewModels/WeatherViewModel.swift:115-123 | parsing fails exactly when the trimmed length is not 3, 6 or 8 |
| Colors.HexColorInByteRange | WeatherApp/ViewModels/WeatherViewModel.swift:116-121 | every channel of a parsed colour lies in 0..255 |
| Colors.HexDigitsKept | WeatherApp/ViewModels/WeatherViewModel.swift:111 | a leading mark is trimmed off and hexadecimal digits are kept |
| Colors.HexColorShortForm | WeatherApp/ViewModels/WeatherViewModel.swift:116-117 | three digits give an opaque colour with each digit times 17 |
| Colors.HexColorRgbRoundTrip | WeatherApp/ViewModels/WeatherViewModel.swift:118-119 | "#RRGGBB" written from any three bytes parses back to them, opaque |
| Colors.HexColorArgbRoundTrip | WeatherApp/ViewModels/WeatherViewModel.swift:120-121 | "#AARRGGBB" written from any four bytes parses back to them |
| Colors.HexColorLiteralParses | WeatherApp/ViewModels/WeatherViewModel.swift:118-119 | "#" and six hexadecimal digits always parse, to an opaque colour |
| Colors.GradientColorsParse | WeatherApp/ViewModels/WeatherViewModel.swift:87-90 | every theme colour of every category parses, opaque |
| Colors.HexColorScanStops | WeatherApp/ViewModels/WeatherViewModel.swift:111-119 | scanning stops at the first non-digit while the trimmed length picks the layout: "FFG" is (255, 0, 255, 255) |
| Colors.HexColorWrongLength | WeatherApp/ViewModels/WeatherViewModel.swift:122-123 | a mark and five hexadecimal digits give no colour |
| Service.HttpErrorMessage | WeatherApp/Services/WeatherService.swift:94-95 | the generic message: "HTTP Error: " followed by the status as an integer |
| Service.ErrorDescription | WeatherApp/Services/WeatherService.swift:18-31 | `errorDescription`: a fixed text per case, and "Network error: " followed by the cause's description for a network error |
| Service.StatusError | WeatherApp/Services/WeatherService.swift:84-96 | the error for a status other than 200: an API network error with that code and the message for 401, for 404 and 429 outside geocoding, or "HTTP Error: <status>" |
| Service.ErrorDescriptionDecodes | WeatherApp/Services/WeatherService.swift:18-31 | a description starts with "Network error: " exactly for network errors and then carries the cause's text; the fixed texts are distinct |
| Service.Fetch | WeatherApp/Services/WeatherService.swift:69-102 | a request succeeds exactly on status 200 with a decodable body, yields that body, and never fails with decodingError or noData |
| Service.StatusErrorTable | WeatherApp/Services/WeatherService.swift:84-96 | every status other than 200 is an API network error with that code; each special message is chosen exactly by its status, 404 and 429 not for geocoding; every other status gets exactly "HTTP Error: <status>" |
| Service.FailuresBeforeStatus | WeatherApp/Services/WeatherService.swift:97-101 | an undecodable 200 body and a transport failure become network errors with the cause's text; a bad URL and a non-HTTP reply keep their own cases |
| Service.HttpErrorCarriesStatus | WeatherApp/Services/WeatherService.swift:94-95 | the generic message starts with "HTTP Error: " and the status reads back from the rest |
| Service.NotFoundDescriptions | WeatherApp/Services/WeatherService.swift:90-91 | 404 reads as city-not-found for weather and forecast, as "HTTP Error: 404" for geocoding |
| Service.RateLimitDescriptions | WeatherApp/Services/WeatherService.swift:92-93 | 429 reads as rate-limited for the forecast, as "HTTP Error: 429" for geocoding |
| Service.ServerErrorDescription | WeatherApp/Services/WeatherService.swift:94-95 | 500 reads as "HTTP Error: 500" |
| Service.MockWeather | WeatherApp/Services/WeatherService.swift:141-170 | `mockWeatherResponse`: London, GB, one condition whose category is Clear |
| Service.MockItem | WeatherApp/Services/WeatherService.swift:173-197 | sample `index` of `mockForecastResponse`: time 1640995200 + 3·3600·index, pressure 1013, and the drawn humidity, condition, cloud cover and wind direction |
| Service.MockForecast | WeatherApp/Services/WeatherService.swift:172-213 | the demo forecast has forty samples for London at offset 0 |
| Service.MockForecastTimes | WeatherApp/Services/WeatherService.swift:173-187 | sample i is at 1640995200 + 10800·i, times strictly increase, each sample carries its draw, so its humidity is in 40..80 and its one condition id in 800..804 |
| Service.MockDailyForecast | WeatherApp/Services/WeatherService.swift:172-198 | on a calendar at UTC (offset 0), the demo forecast reduces to samples 4, 12, 20, 28 and 36 |
| ViewModel.SearchOutcome | WeatherApp/ViewModels/WeatherViewModel.swift:22-44 | the state `searchWeather()` leaves: blank text only sets the message; otherwise the weather error, else the forecast error, else both results, and loading cleared |
| ViewModel.CurrentWeatherTypeOf | WeatherApp/ViewModels/WeatherViewModel.swift:82-84 | `currentWeatherType` on the weather value: the category of the first condition, Clear without weather or conditions |
| ViewModel.WeatherViewModel.constructor | WeatherApp/ViewModels/WeatherViewModel.swift:13-17 | nothing loaded, not loading, no message, empty search text |
| ViewModel.WeatherViewModel.SearchWeather | WeatherApp/ViewModels/WeatherViewModel.swift:22-44 | the requests are made exactly when the text is not blank, and the new state is the search outcome for the two replies |
| ViewModel.WeatherViewModel.ClearError | WeatherApp/ViewModels/WeatherViewModel.swift:53-55 | the message is dropped and nothing else changes |
| ViewModel.WeatherViewModel.LoadMockData | WeatherApp/ViewModels/WeatherViewModel.swift:47-50 | the demo weather and forecast replace the current ones, and on a calendar at UTC (offset 0) the daily forecast becomes the five noon samples |
| ViewModel.WeatherViewModel.DailyForecast | WeatherApp/ViewModels/WeatherViewModel.swift:58-79 | `dailyForecast` on the view model's forecast, on a calendar at the given offset from UTC |
| ViewModel.WeatherViewModel.CurrentWeatherType | WeatherApp/ViewModels/WeatherViewModel.swift:82-84 | `currentWeatherType` on the view model's weather |
| ViewModel.WeatherViewModel.GradientColors | WeatherApp/ViewModels/WeatherViewModel.swift:87-90 | `gradientColors`: the theme colours of the current category that parse |
| ViewModel.BlankSearch | WeatherApp/ViewModels/WeatherViewModel.swift:23-26 | blank text sets "Please enter a city name" and changes nothing else |
| ViewModel.SearchCompletes | WeatherApp/ViewModels/WeatherViewModel.swift:28-43 | a non-blank search ends not loading, with no message exactly when both requests succeed, and then shows both results |
| ViewModel.SearchFailureKeepsData | WeatherApp/ViewModels/WeatherViewModel.swift:39-41 | a failed search keeps the old data and shows the weather error if there is one, else the forecast error |
| ViewModel.SearchUnknownCity | WeatherApp/ViewModels/WeatherViewModel.swift:32-40 | for any non-blank search text, a 404 on the weather request shows "Network error: City not found. Please check the city name." |
| ViewModel.WhitespaceIsBlank | WeatherApp/ViewModels/WeatherViewModel.swift:23 | spaces, tabs and line breaks alone are blank |
| ViewModel.PaddedNameIsNotBlank | WeatherApp/ViewModels/WeatherViewModel.swift:23 | " Paris " is not blank |
| ViewModel.ViewGradientIsTwoOpaque | WeatherApp/ViewModels/WeatherViewModel.swift:82-90 | whatever the state, the view's gradient is exactly two opaque colours, the clear-sky theme when there is no weather or no condition |
| ViewModel.ParsedColors | WeatherApp/ViewModels/WeatherViewModel.swift:89 | `compactMap { Color(hex: $0) }`: the colours of the strings that parse, in order |
| ViewModel.ThemeColors | WeatherApp/ViewModels/WeatherViewModel.swift:87-90 | `gradientColors` for a category: its theme stops that parse |
| ViewModel.FormatHumidity | WeatherApp/ViewModels/WeatherViewModel.swift:103-105 | `formatHumidity`: the interpolated integer followed by "%" |
| ViewModel.SomesMembers | WeatherApp/ViewModels/WeatherViewModel.swift:89 | compactMap keeps exactly the present values |
| ViewModel.SomesAllPresent | WeatherApp/ViewModels/WeatherViewModel.swift:89 | when every value is present, compactMap keeps all of them in order |
| ViewModel.ParsedColorsAllParse | WeatherApp/ViewModels/WeatherViewModel.swift:89 | when every string parses, the colours are all of them, in order |
| ViewModel.ThemeColorsComplete | WeatherApp/ViewModels/WeatherViewModel.swift:87-90 | every category yields both its theme colours, opaque |
| ViewModel.FormatHumidityRoundTrip | WeatherApp/ViewModels/WeatherViewModel.swift:103-105 | the humidity text ends in "%" and the number reads back from the rest |

## Left out

- Views, URL building, percent-encoding, `URLSession`, JSON decoding and `Codable` keys. The outcome of each request is an input `Exchange`, and an undecodable body is its `Failure` case.
- Swift concurrency. The two requests of a search run concurrently in the source. The model consumes both replies in one step, so the `isLoading == true` state inside a search is not observable.
- Floating point: temperatures, wind speed, `pop`, latitude and longitude, the division of colour channels by 255, and the temperature and wind-speed formatters.
- `UUID` identifiers and `ForecastItem.dayName`, because they use the date formatter and random identifiers.
- The random values of `mockForecastResponse`. Its integer and string draws are the parameter `draws`, and the demo operations require `IsMockDraws`: forty draws, each in the ranges the source draws from.
- `searchCities`'s query limit and URL. Its reply handling is `Fetch(Geocoding, …)`.
- DailyForecast.Day: `Calendar.current` is a fixed offset from UTC, with no daylight-saving changes. The `?? item1.date` fallback never applies, because local noon always exists at a fixed offset.
- DailyForecast.SortByDate is an insertion sort rather than Swift's sort. The picks it sorts lie on distinct days, so they have distinct times and every correct sort gives the same result.
- Text.IsAlphanumeric: Swift's `CharacterSet.alphanumerics` is Unicode-wide. The model uses ASCII letters and digits, so a non-ASCII letter at either end of a colour string is trimmed here and kept by the source.
- Text.Lowercased lowers ASCII letters only. For the category keywords this is exact. The only non-ASCII character that lower-cases to an ASCII letter is the Kelvin sign, which becomes `k`, and no keyword contains `k`.
- Text.Uppercased upper-cases ASCII letters only. Swift's `uppercased()` also maps some non-ASCII characters to several ASCII letters: "ß" becomes "SS" and the ligature "ﬆ" becomes "ST". So Text.LowercasedIgnoresUppercasing and Weather.WeatherTypeIgnoresCase hold for ASCII case changes only. For example, "miﬆ" is Clear in the source, but its upper-cased form "MIST" is Foggy.
- DailyForecast.DayKeys lists the days in order of first appearance. A Swift `Dictionary` hands out its keys in hash order. The result does not depend on that order: DailyForecast.KeyOrderIrrelevant proves that any order of the days, each once, gives the same daily forecast. The picks are sorted afterwards, and picks of distinct days have distinct times.
- Service.MockDailyForecast and WeatherViewModel.LoadMockData state the five noon samples for a calendar at UTC (offset 0) only. The source uses the device's calendar. At other offsets the demo days are cut differently: at UTC+2 the 11:00 local sample is closer to noon than the 12:00 UTC sample, and at UTC−5 the first samples fall on 31 December, giving six days.
- Colors.ScanHexInt64 does not accept a `0x` prefix and does not skip leading whitespace. After trimming, a string has no leading whitespace.
- Colors.ScanHexInt64 does not model `UInt64` overflow. Only trimmed lengths 3, 6 and 8 give a colour, so the value scanned is below 2^32.
- Colors.Trimmed counts characters, not grapheme clusters, for `hex.count`.
