# pyxa helpers, modelled in Dafny

This project models the decision logic inside the helper layer of pyxa, a
small assistant toolkit. It covers:

- **Weather forecast** (`pyxa/core/weather.py`, module `Weather`): wind-bearing
  bucketing, the choice of forecast window (daily / hourly / current), unit
  vocabulary, the five-rule condition rewrite, and assembly of the 14-field
  report, or `None` when offline.
- **Location helpers** (`pyxa/core/location.py`, module `Location`): locating a
  place, picking a zone name from a reverse-geocode answer with a fixed
  priority list (which repeats `suburb`), labelling the part of the day with
  the thresholds of `pyxa/constants.py`, and building the distance request.
- **Calendar helpers** (`pyxa/utils/system.py`, module `Calendar`):
  `resolve_number_of_days` and the slice arithmetic of `resolve_day`,
  including their error cases.
- **Line-list transforms** (`pyxa/utils/dataset.py`, module `Dataset`): the
  pure cores of `sort_lines`, `randomize_lines` and `random_delete_lines`
  over a sequence of lines.
- **Temporary names** (`pyxa/utils/local.py`, module `LocalFiles`):
  `temporary_rename` with `os.path.splitext` written out as
  `genericpath._splitext` does it.

Three support modules hold Python's semantics as the code uses them:

- `Wrappers`: `Option`, `Result`, and the exceptions raised.
- `Strings`: ASCII `lower`, `startswith`/`endswith`, the global `str.replace`,
  `isspace`, and code-point string order.
- `Lists`: negative indexing and `list.index`.

Everything impure becomes a parameter:

- The connectivity probe is a boolean.
- The geocoding, routing and forecast services are functions.
- The wall clock is an hour and a weekday.
- Each `random.choice` is a boolean choosing between its two alternatives.
- `random.shuffle` and `random.choices` are nondeterministic choices (`:|`)
  inside methods.

Python raises exceptions; the model returns them as `Err(...)`. Behaviour
of the code that is easy to misread:

- Wind bearings go through `int()`, which truncates toward zero, not floor.
  Bearings in (-33.75, 0) are therefore northern.
- The condition base drops the last character whatever it is, not only a
  period.
- "Heavy cloudy." becomes "possible to have heavy cloudy weather weather".
  The cloudy and heavy rules both append " weather".
- `days == 2` indexes the week list without wrapping, so it raises
  `IndexError` on Saturday and Sunday.
- The zone scan skips keys whose value is `None`, not only missing keys. An
  empty string is returned.
- The report's summary field is the lower-cased daily summary. The rewritten
  condition is computed by the source but never returned, so `Forecast` does
  not use `RewriteCondition`. The rewrite is modelled and proved on its own.
- The hourly branch of `forecast` reads `currently` from an hourly data point
  and raises `KeyError`. `Forecast` uses the corrected branch; the branch as
  written is kept beside it (see "Findings").
- `str.replace` is global, so a rule that fires rewrites every occurrence of
  its pattern: "light snow and light rain" gets "possible to have" twice.

## Model

| member | source | states |
|---|---|---|
| Weather.Trunc | pyxa/core/weather.py:40 | `int()` on a number truncates toward zero: the result is within one below a non-negative argument and within one above a negative one |
| Weather.WindDirection | pyxa/core/weather.py:36-41 | the label is always one of the eight compass labels |
| Weather.WindDirectionOfWholeDegrees | pyxa/core/weather.py:38-41 | for a whole bearing d >= 0 the label is `Directions[((4d + 45) div 90) mod 8]` |
| Weather.WindDirectionHalfTurn | pyxa/core/weather.py:38-41 | for d >= 0, the bearings d and d + 180 get the same label, because eight 22.5-degree sectors cover only half a circle |
| Weather.WindDirectionNorth | pyxa/core/weather.py:38-41 | both 0 and 360 degrees are "northern" |
| Weather.TruncShift | pyxa/core/weather.py:40 | for x >= 0, truncating x + 8 gives the truncation of x plus 8 |
| Weather.WindDirectionSmallNegative | pyxa/core/weather.py:40-41 | every bearing strictly between -33.75 and 0 is "northern", because of truncation toward zero |
| Weather.SelectWindow | pyxa/core/weather.py:103-122 | daily iff 1 <= days <= 7, reading day `days`; otherwise hourly iff hours is non-zero and <= 48 (negative hours included), reading hour `hours`; otherwise current |
| Weather.DaysWinOverHours | pyxa/core/weather.py:103-109 | with days in 1..7, any hours value is ignored and the daily window is used |
| Weather.ModeTag | pyxa/core/weather.py:104-117 | the tag is 0 exactly for daily, 1 exactly for hourly, and 2 otherwise |
| Weather.UnitsFor | pyxa/core/weather.py:94-97 | metric iff the system is "si", iff the degree suffix is °C, iff the speed unit is "kph"; imperial gives exactly ("us", °F, "mph") |
| Weather.Select | pyxa/core/weather.py:103-122 | each window succeeds exactly when its series indexes exist (daily[days]; hourly[hours] and daily[0]; daily[0]), otherwise `IndexError`; max/min come from the chosen day in the daily window and from daily[0] otherwise; temperature and feels-like come from the hourly point in the hourly window and from `currently` otherwise |
| Weather.SelectAsWritten | pyxa/core/weather.py:109-115 | as the source reads it, the hourly branch never succeeds |
| Weather.HourlyBranchAsWrittenFails | pyxa/core/weather.py:110-113 | whenever the hourly point and today's entry exist, the branch as written raises `KeyError('currently')`, while the corrected selection succeeds |
| Weather.ConditionBase | pyxa/core/weather.py:124 | the base is the lower-cased summary, one character shorter, whatever that character is |
| Weather.ConditionBaseDropsLastCharacter | pyxa/core/weather.py:124 | "Clear" becomes "clea": the cut is not limited to a period |
| Weather.PrefixRule | pyxa/core/weather.py:126-142 | a rule that fires leaves a result starting with the replacement and ending with the appended text; a rule that does not fire changes nothing (that every occurrence is rewritten is stated by `Weather.LightRewriteTwice`) |
| Weather.PossibleRule | pyxa/core/weather.py:126-128 | a condition starting with "possible" comes out starting with "possible to have" and ending in " weather"; any other is unchanged |
| Weather.RainRule | pyxa/core/weather.py:130-131 | a condition starting with "rain" comes out starting with "rainy weather"; when "rain" occurs only at the front, the result is exactly "rainy weather" + the rest, with nothing appended; any other condition is unchanged |
| Weather.LightRule | pyxa/core/weather.py:136-138 | a condition starting with "light" comes out starting with "possible to have light" and ending in " weather"; any other is unchanged |
| Weather.HeavyRule | pyxa/core/weather.py:140-142 | a condition starting with "heavy" comes out starting with "possible to have heavy" and ending in " weather"; any other is unchanged |
| Weather.RewriteCondition | pyxa/core/weather.py:126-142 | the five rules applied in source order, each to the previous result; what it computes is stated by `Weather.RewriteRulesExclusive` and the rewrite lemmas below |
| Weather.CloudyRule | pyxa/core/weather.py:133-134 | " weather" is appended exactly when the condition ends in "cloudy" |
| Weather.PrefixRuleAtFront | pyxa/core/weather.py:126-142 | when the pattern occurs only at the front, the rule yields replacement + rest + suffix |
| Weather.RewriteRulesExclusive | pyxa/core/weather.py:126-142 | the five sequential rules equal a one-case-per-prefix reading: at most one of possible/rain/light/heavy fires, and only `cloudy` combines with another |
| Weather.LightRewrite | pyxa/core/weather.py:133-138 | a "light…" condition not ending in "cloudy", with no second "light", becomes "possible to have light…" + " weather" |
| Weather.HeavyCloudyRewrite | pyxa/core/weather.py:133-142 | a "heavy…cloudy" condition with no second "heavy" gets " weather" twice: once from the cloudy rule and once from the heavy rule |
| Weather.LightRewriteTwice | pyxa/core/weather.py:136-138 | in "light" + a + "light" + b, with no `l` in a, no "light" in b, and the text not ending in "cloudy", both "light"s become "possible to have light", then " weather" is appended |
| Weather.LightSnowAndLightRainExample | pyxa/core/weather.py:136-138 | "light snow and light rain" becomes "possible to have light snow and possible to have light rain weather" |
| Weather.LightRainExample | pyxa/core/weather.py:124-142 | "Light rain." is rewritten to "possible to have light rain weather" |
| Weather.HeavyCloudyExample | pyxa/core/weather.py:124-142 | "Heavy cloudy." is rewritten to "possible to have heavy cloudy weather weather" |
| Weather.RewriteUnmatched | pyxa/core/weather.py:126-142 | a base that matches no guard is returned unchanged |
| Weather.Sky | pyxa/core/weather.py:147-148 | "brighter" iff cloud cover < 0.5, else "darker" |
| Weather.Forecast | pyxa/core/weather.py:91-157 | offline gives `None`; a location failure propagates; once located, it succeeds iff the window's selection and the day label both succeed, and otherwise passes on the first failure; a report holds the located zone, the selection's four temperatures, humidity + "%", wind speed + the speed unit, the lower-cased daily summary, `Sky` of the cloud cover, `WindDirection` of the bearing, `PartOfDay` of the clock, the resolved day label, and "day" iff days == 1; days == 2 on a weekend fails |
| Weather.ForecastNoLocationIsEmpty | pyxa/core/weather.py:91-92 | asking with no location and with "" gives the same answer |
| Weather.ForecastIgnoresHoursForDays | pyxa/core/weather.py:103-109 | with days in 1..7, the hours argument does not change the answer |
| Weather.ForecastOffline | pyxa/core/weather.py:91-157 | offline, the answer is `None` whatever the location, days, hours, units, clock or choices |
| Location.FirstListed | pyxa/core/location.py:99-101 | returns the value of the first listed key that is present with a non-`None` value, every earlier key being absent; returns `None` iff all listed keys are absent |
| Location.ZoneName | pyxa/core/location.py:87-101 | with a truthy hint: exactly `json[hint]`, or `KeyError(hint)` when the key is missing; without one it never fails and returns the first present non-`None` value in priority order, or `None` |
| Location.SkipAbsentPrefix | pyxa/core/location.py:99-101 | keys that are all absent can be removed from the front of the scan without changing the answer |
| Location.PrefixDecides | pyxa/core/location.py:99-101 | once a prefix of the list finds a value, keys after it are never consulted |
| Location.SkipAbsentKey | pyxa/core/location.py:99-101 | an absent key can be removed from anywhere in the list |
| Location.RepeatedKeyIsInert | pyxa/core/location.py:99-101 | a key listed a second time never changes the answer |
| Location.DuplicateSuburbIsInert | pyxa/core/location.py:93-94 | the priority list gives the same answer as the list without its second "suburb", for every reverse-geocode answer |
| Location.StateBeforeCountry | pyxa/core/location.py:93-101 | given only a state X and a country Y, the zone is X |
| Location.EmptyStreetIsReturned | pyxa/core/location.py:99-101 | an empty-string street is returned, not skipped |
| Location.PartOfDay | pyxa/core/location.py:104-117 | with thresholds 5/12/17/21: hours in [5,12) give morning or day; [12,17) give afternoon or day; [17,21) give evening; every other hour gives night; the label is always one of the five |
| Location.PartOfDayDeterministicOutsideDaylight | pyxa/core/location.py:108-117 | before 5 and from 17 on, the random choice does not affect the label |
| Location.Locate | pyxa/core/location.py:73-80 | a truthy location uses the first forward-geocode result (`IndexError` when there is none); `None` and "" both use the caller's own position |
| Location.GetCoordinates | pyxa/core/location.py:73-84 | success holds the located point and the zone named from its reverse lookup; it fails exactly when locating or naming fails |
| Location.GetCoordinatesWithoutHint | pyxa/core/location.py:82-101 | without a zone hint, a located point always gets a zone answer |
| Location.CalculateDistance | pyxa/core/location.py:154-172 | it succeeds iff both the origin and the destination can be located; the routing answer is passed through unchanged for a request with the given mode, the located origin (the caller's position when none is given) and destination, and units "metric" iff metric, else "imperial" |
| Location.GetCoordinatesNoneIsEmpty | pyxa/core/location.py:73-80 | no location and "" are located alike, at the caller's own position |
| Location.CalculateDistanceEmptyOrigin | pyxa/core/location.py:154-157 | no origin and an empty origin give the same distance answer |
| Calendar.CycleSlice | pyxa/utils/system.py:190 | `islice(cycle(week), start, stop)` has stop - start elements (none when stop <= start), element i being `week[(start + i) mod 7]` |
| Calendar.ResolveNumberOfDays | pyxa/utils/system.py:167-192 | None/0 give "today" and 1 gives "tomorrow"; 2 fails with `IndexError` iff today is Saturday or Sunday, else gives "day after tomorrow" or `week[today+2]`; 3..6 give `week[(today+days) mod 7]`, never today's name; other values pass through |
| Calendar.ResolveDay | pyxa/utils/system.py:195-215 | an unknown day name raises `ValueError`, and `ValueError` is the only failure |
| Calendar.ResolveInWindow | pyxa/utils/system.py:210-215 | with `next_week` the answer is today + dayIdx - 1; without it, the call succeeds iff the day occurs in the slice |
| Calendar.ResolveDayNextWeek | pyxa/utils/system.py:208-213 | with `next_week` the answer is today + dayIdx - 1, so it is -1 for Monday asked on a Monday |
| Calendar.FirstInWindow | pyxa/utils/system.py:210-215 | the first position of the day in the slice is k = (dayIdx - today) mod 7 when k < today + dayIdx; otherwise the day is absent from the slice |
| Calendar.ResolveDayThisWeek | pyxa/utils/system.py:210-215 | without `next_week` the answer is k = (dayIdx - today) mod 7 if k < today + dayIdx, else `ValueError` |
| Calendar.ResolveDayLandsOnDay | pyxa/utils/system.py:210-215 | for every day of the week, any answer k lies in 0..6 and satisfies `week[(today + k) mod 7] == day` (unknown names fail, by `Calendar.ResolveDay`) |
| Calendar.ResolveDayFailsOnMonday | pyxa/utils/system.py:206-215 | on a Monday every call without `next_week` raises `ValueError` |
| Lists.PyIndex | pyxa/utils/system.py:185 | subscripting succeeds iff -len <= i < len; negative indices count from the end; otherwise `IndexError` |
| Lists.IndexOf | pyxa/utils/system.py:208 | `list.index` fails iff the element is absent; otherwise it gives the first position holding the element |
| Strings.StartsWith | pyxa/core/weather.py:126 | `s.startswith(prefix)`: the prefix is no longer than s and equals s's first characters (the guards at weather.py:126, 130, 136 and 140) |
| Strings.EndsWith | pyxa/core/weather.py:133 | `s.endswith(suffix)`: the suffix is no longer than s and equals s's last characters |
| Strings.Lower | pyxa/core/weather.py:124 | the result has the same length, with each character lower-cased |
| Strings.Replace | pyxa/core/weather.py:128 | a string starting with the pattern yields one starting with the replacement; a string without the pattern is unchanged |
| Strings.ReplaceLeading | pyxa/core/weather.py:128 | an occurrence at the front becomes the replacement and the scan resumes right after it |
| Strings.ReplaceFirstOccurrence | pyxa/core/weather.py:128 | when `pat` first occurs after the text p, `(p + pat + rest).replace(pat, rep)` is p + rep + `rest.replace(pat, rep)`: the scan goes left to right and replaces every occurrence |
| Strings.ReplaceTwoOccurrences | pyxa/core/weather.py:137 | both occurrences in pat + a + pat + b are replaced when a holds no character that starts pat and b holds no occurrence |
| Strings.ReplaceOnlyAtFront | pyxa/core/weather.py:138 | when the pattern occurs only at the front, the global replace changes only the front |
| Strings.Less | pyxa/utils/dataset.py:38 | Python's `<` on strings, the order `sorted` uses: by code point, a proper prefix first; its meaning is stated by `Strings.LessMeaning` |
| Strings.LessMeaning | pyxa/utils/dataset.py:38 | a sorts before b iff a is a proper prefix of b, or at the first position where they differ a's character has the smaller code point |
| Strings.IsSpaceChar | pyxa/utils/dataset.py:113 | the characters for which `str.isspace` holds: tab to carriage return, the four separators U+001C..U+001F, space, U+0085, U+00A0, U+1680, U+2000..U+200A, U+2028, U+2029, U+202F, U+205F and U+3000 |
| Strings.IsSpace | pyxa/utils/dataset.py:113 | `s.isspace()`: s is non-empty and every character is white space |
| Strings.IsSpaceExamples | pyxa/utils/dataset.py:113 | the empty string is not white space, " \t\n" is, and " x " is not |
| Strings.LessIrreflexive | pyxa/utils/dataset.py:38 | no string sorts before itself |
| Strings.LessTransitive | pyxa/utils/dataset.py:38 | string order is transitive |
| Strings.LessTotal | pyxa/utils/dataset.py:38 | of two different strings, one sorts first |
| Strings.LessAsymmetric | pyxa/utils/dataset.py:38 | two strings never sort before each other |
| Dataset.StrictlySortedIsDistinct | pyxa/utils/dataset.py:38 | a strictly increasing list has no repeats |
| Dataset.Insert | pyxa/utils/dataset.py:38 | inserting into a strictly sorted list keeps it strictly sorted and adds exactly that line to its set |
| Dataset.SortLines | pyxa/utils/dataset.py:34-43 | `sorted(set(lines))` is strictly increasing and holds exactly the input's lines |
| Dataset.SortedUnique | pyxa/utils/dataset.py:38 | two strictly increasing lists with the same lines are equal, so the sorted output is determined |
| Dataset.SortLinesOfSameElements | pyxa/utils/dataset.py:38 | two files with the same set of lines sort to the same output |
| Dataset.SortLinesIdempotent | pyxa/utils/dataset.py:38 | sorting the sorted output changes nothing |
| Dataset.SortLinesOfSorted | pyxa/utils/dataset.py:38 | a strictly increasing file is its own sorted form |
| Dataset.SortLinesCount | pyxa/utils/dataset.py:38-41 | one line is written per distinct input line |
| Dataset.Shuffle | pyxa/utils/dataset.py:50-51 | the shuffle yields each line of the set exactly once: no repeats, the same set, and as many lines as the set holds |
| Dataset.RandomizeLines | pyxa/utils/dataset.py:46-56 | the output is a permutation of the distinct input lines, with length equal to their number |
| Dataset.SortAfterShuffle | pyxa/utils/dataset.py:38-51 | sorting a shuffled file gives what sorting the original gives |
| Dataset.Pool | pyxa/utils/dataset.py:112-113 | the pool holds exactly the input lines that are not white space only |
| Dataset.RetainCount | pyxa/utils/dataset.py:116-120 | never more than the pool size; for a pool n smaller than the retain value, n minus a tenth of n rounded down; otherwise the retain value, or none when it is negative; positive only for a non-empty pool |
| Dataset.RandomDeleteLines | pyxa/utils/dataset.py:110-122 | writes `RetainCount(pool size, retain)` lines, each a non-blank input line, with repeats possible; the draw never meets an empty pool |
| LocalFiles.LastIndexIn | pyxa/utils/local.py:66 | the `rfind` of the separators and of the dot inside `splitext`: -1 or an index holding one of the characters, with none of them after it |
| LocalFiles.NonDotBetween | pyxa/utils/local.py:66 | the leading-dot scan of `splitext`: true iff some character between the last separator and the last dot is not a dot |
| LocalFiles.SplitExt | pyxa/utils/local.py:66 | `root + ext` is the path; a non-empty ext is a dot followed by neither dots nor separators, after a final component of root holding a non-dot character |
| LocalFiles.SplitExtFindsExtension | pyxa/utils/local.py:66 | every such extension split is the one `splitext` returns, so the split is unique |
| LocalFiles.SplitExtNoExtension | pyxa/utils/local.py:66 | when `splitext` finds no extension, no way of cutting the path is an extension split |
| LocalFiles.TemporaryRename | pyxa/utils/local.py:64-67 | the name is |file| + |rename| long, holds the rename at |root|, and deleting it there gives back the file; a `None` rename raises `TypeError` |
| LocalFiles.TemporaryRenameEmpty | pyxa/utils/local.py:67 | an empty rename gives back the file name |
| LocalFiles.TemporaryRenameNoExtension | pyxa/utils/local.py:66-67 | a file without an extension gets the rename appended at its end |
| LocalFiles.TemporaryRenameBeforeExtension | pyxa/utils/local.py:66-67 | a file `root + ext` with an extension becomes `root + rename + ext` |
| LocalFiles.TemporaryRenameExample | pyxa/utils/local.py:64-67 | with the default "temp_xa", "data/train.txt" becomes "data/traintemp_xa.txt" |
| LocalFiles.DotFileHasNoExtension | pyxa/utils/local.py:66 | ".bashrc" has no extension, on either path flavour |

## Left out

- Network services are not modelled: the Google Maps client, `geocoder.osm`, the DarkSky `requests.get`, and `check_internet`. Their answers are parameters. Credential failures (the `ValueError` the docstrings name for an invalid key, and the services' own errors) therefore do not arise.
- `check_internet` catches the builtin `ConnectionError` (pyxa/utils/system.py:122), but `requests` raises its own `ConnectionError`, which is not a subclass of the builtin one. Without a connection the probe therefore raises instead of returning `False`, so `forecast` raises rather than returning `None`. The model takes only the probe's boolean answer, and its offline branch (`Weather.ForecastOffline`) is reached only through that abstract answer.
- `DEFAULT_WEATHER_URL` and `DEFAULT_PING_URL` are imported from `pyxa/utils/settings.py`, which does not define them. The functions are modelled as if the import succeeded, and no URL is built.
- The JSON shape of the services' answers is abstracted into records (`Payload`, `DataPoint`, `ZoneMap`). Missing JSON keys other than the zone hint are not modelled.
- Floating-point formatting is not modelled. Temperatures, humidity × 100 and wind speed are kept as the text Python prints; only the appended suffixes are stated.
- `Strings.Lower` lower-cases ASCII letters only, leaving other characters as they are; Python's full Unicode case mapping is not modelled.
- `datetime.now()` is the `Clock` parameter, and the hour is taken to be in 0..23. The random module is either choice parameters or nondeterministic choice.
- `Dataset.RetainCount` uses `n div 10` for `int(0.1 * n)`. The two agree for every pool a file can hold, far below 2^50 lines. The floating-point product itself is not modelled.
- `lines_to_retain` is taken as an integer; `int()` of other types is not modelled.
- File reading, writing, `os.path.isfile` and `FileNotFoundError` are not modelled. A file is the sequence of its lines, each with its line ending as `readlines` returns it.
- `random_replace` is not modelled: it indexes the line list with a line, so it fails on any non-empty file.
- `create_dir_with_same_filename`, `create_copy` and the copy in `temporary_copy` are filesystem operations and are not modelled. The temporary name they rely on is modelled.
- Windows `ctypes`/win32 calls, the profiling decorator, fuzzy matching, version checks, logging, the CLI, project scaffolding and packaging are outside the modelled helpers.
- `metric=None` in `forecast`/`calculate_distance` behaves as `False` in Python. The model takes a boolean.
- Weather.Forecast: the hourly window is read through the corrected `Weather.Select`, so an hourly forecast succeeds where the source raises `KeyError('currently')`; `Weather.SelectAsWritten` holds the failing branch as written.
- Weather.WindDirection: bearings and cloud cover are exact reals. Floating-point rounding of `(degree + 11.25) / 22.5` next to a sector boundary is not modelled, nor the `ValueError`/`OverflowError` that `int()` raises on NaN or infinity (weather.py:40).
- Weather.Forecast: the rewritten condition is not stated, because the source computes it and never returns it; the rewrite has its own lemmas.

## Findings

| source | as written | input that shows it | evidently intended | confidence | as-written member | corrected member |
|---|---|---|---|---|---|---|
| pyxa/core/weather.py:112-113 | the hourly branch reads `data["currently"]["temperature"]` where `data` is already the hourly data point, which has no `currently` key | `hours=3` with an hourly series of at least 4 points: `KeyError('currently')` | read `data["temperature"]` and `data["apparentTemperature"]` from the hourly point | high; not executed | Weather.SelectAsWritten, Weather.HourlyBranchAsWrittenFails | Weather.Select |
