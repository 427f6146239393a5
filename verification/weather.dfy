/**
 The forecast of `pyxa/core/weather.py`. The connectivity probe is
 a boolean, the forecast service a function from a point and a unit system
 to its answer, the clock and the two random choices are parameters.
 Numbers the service returns and the source only prints (temperatures,
 humidity, wind speed) are kept as the text Python would print.
 */
module Weather {
  import opened Wrappers
  import opened Strings
  import opened Lists
  import Location
  import Calendar

  /** The compass labels, one per 45 degrees. */
  const Directions: seq<string> :=
    ["northern", "northeastern", "eastern", "southeastern",
     "southern", "southwestern", "western", "northwestern"]

  /** Python's `int()` on a number: truncation toward zero. */
  function Trunc(x: real): (n: int)
    ensures 0.0 <= x ==> n as real <= x < n as real + 1.0
    ensures x < 0.0 ==> n as real - 1.0 < x <= n as real
  {
    if x >= 0.0 then x.Floor else -((-x).Floor)
  }

  /** `wind_direction`: sectors of 22.5 degrees, shifted by 11.25, labelled cyclically. */
  function WindDirection(degree: real): (r: string)
    ensures r in Directions
  {
    Directions[Trunc((degree + 11.25) / 22.5) % |Directions|]
  }

  /** For whole non-negative bearings the sector is an integer division. */
  lemma WindDirectionOfWholeDegrees(d: int)
    requires d >= 0
    ensures WindDirection(d as real) == Directions[((4 * d + 45) / 90) % 8]
  {
    var x := (d as real + 11.25) / 22.5;
    var q := (4 * d + 45) / 90;
    var m := (4 * d + 45) % 90;
    assert x == (4 * d + 45) as real / 90.0;
    assert (4 * d + 45) as real == 90.0 * q as real + m as real;
    assert q as real <= x < q as real + 1.0;
    assert x.Floor == q;
  }

  /** Eight sectors of 22.5 degrees cover only half the circle: labels repeat every 180 degrees. */
  lemma WindDirectionHalfTurn(d: real)
    requires d >= 0.0
    ensures WindDirection(d + 180.0) == WindDirection(d)
  {
    var x := (d + 11.25) / 22.5;
    assert (d + 180.0 + 11.25) / 22.5 == x + 8.0;
    TruncShift(x);
    assert (Trunc(x) + 8) % 8 == Trunc(x) % 8;
  }

  /** Adding 8 to a non-negative number adds 8 to its truncation. */
  lemma TruncShift(x: real)
    requires x >= 0.0
    ensures Trunc(x + 8.0) == Trunc(x) + 8
  {
    assert (x + 8.0).Floor == x.Floor + 8;
  }

  /** Both ends of the circle are northern. */
  lemma WindDirectionNorth()
    ensures WindDirection(0.0) == "northern"
    ensures WindDirection(360.0) == "northern"
  {
    WindDirectionHalfTurn(180.0);
    assert (180.0 + 11.25) / 22.5 == 8.5;
  }

  /** Truncation, not flooring: small negative bearings down to -33.75 stay northern. */
  lemma WindDirectionSmallNegative(d: real)
    requires -33.75 < d < 0.0
    ensures WindDirection(d) == "northern"
  {
    var x := (d + 11.25) / 22.5;
    assert -1.0 < x < 1.0;
  }

  /** Which part of the service's answer a forecast reads. */
  datatype Window = Daily(day: int) | Hourly(hour: int) | Current

  /** The window choice of `forecast`: days first, then hours, then the current conditions. */
  function SelectWindow(days: Option<int>, hours: Option<int>): (w: Window)
    ensures w.Daily? <==> days.Some? && 1 <= days.value <= 7
    ensures w.Daily? ==> w.day == days.value
    ensures w.Hourly? <==>
              !(days.Some? && 1 <= days.value <= 7) && hours.Some? && hours.value != 0 && hours.value <= 48
    ensures w.Hourly? ==> w.hour == hours.value
  {
    if Truthy(days, 0) && days.value <= 7 && days.value > 0 then Daily(days.value)
    else if Truthy(hours, 0) && hours.value <= 48 then Hourly(hours.value)
    else Current
  }

  /** The mode tag a report carries: 0 daily, 1 hourly, 2 current. */
  function ModeTag(w: Window): (tag: int)
    ensures 0 <= tag <= 2
    ensures tag == 0 <==> w.Daily?
    ensures tag == 1 <==> w.Hourly?
  {
    match w
    case Daily(_) => 0
    case Hourly(_) => 1
    case Current => 2
  }

  /** The unit system asked of the service, and the suffixes printed after degrees and speeds. */
  datatype Units = Units(system: string, degree: string, perHour: string)

  function UnitsFor(metric: bool): (u: Units)
    ensures metric <==> u.system == "si"
    ensures metric <==> u.degree == "\U{00B0}C"
    ensures metric <==> u.perHour == "kph"
    ensures !metric ==> u == Units("us", "\U{00B0}F", "mph")
  {
    if metric then Units("si", "\U{00B0}C", "kph") else Units("us", "\U{00B0}F", "mph")
  }

  /** One data point of the service's answer; printed numbers are kept as text. */
  datatype DataPoint = DataPoint(
    summary: string,
    temperature: string,
    apparentTemperature: string,
    apparentTemperatureMax: string,
    apparentTemperatureMin: string,
    humidityPercent: string,          // the text of humidity * 100
    windSpeed: string,
    cloudCover: real,
    windBearing: real)

  /** The service's answer: current conditions, the hourly and daily series, and the daily summary. */
  datatype Payload = Payload(
    currently: DataPoint,
    hourly: seq<DataPoint>,
    daily: seq<DataPoint>,
    dailySummary: string)

  /** The selected data point and the four temperatures printed for it. */
  datatype Selection = Selection(
    data: DataPoint,
    temperature: string,
    feelsLike: string,
    maxTemperature: string,
    minTemperature: string)

  /**
   The three branches of `forecast`, with the hourly temperatures read from
   the hourly data point itself. The daily maximum and minimum come from the
   chosen day in the daily window and from today's entry otherwise; the
   current temperatures are reported in the daily window.
   */
  function Select(p: Payload, w: Window, degree: string): (r: Result<Selection>)
    ensures w.Daily? ==> (r.Ok? <==> PyIndex(p.daily, w.day).Ok?)
    ensures w.Hourly? ==> (r.Ok? <==> PyIndex(p.hourly, w.hour).Ok? && |p.daily| > 0)
    ensures w.Current? ==> (r.Ok? <==> |p.daily| > 0)
    ensures r.Err? ==> r.error == IndexError
    ensures r.Ok? && w.Daily? ==> r.value.data == PyIndex(p.daily, w.day).value
    ensures r.Ok? && w.Hourly? ==> r.value.data == PyIndex(p.hourly, w.hour).value
    ensures r.Ok? && w.Current? ==> r.value.data == p.currently
    ensures r.Ok? ==>
              var range := if w.Daily? then r.value.data else p.daily[0];
              && r.value.maxTemperature == range.apparentTemperatureMax + degree
              && r.value.minTemperature == range.apparentTemperatureMin + degree
    ensures r.Ok? ==>
              var now := if w.Hourly? then r.value.data else p.currently;
              && r.value.temperature == now.temperature + degree
              && r.value.feelsLike == now.apparentTemperature + degree
  {
    match w
    case Daily(d) =>
      var data :- PyIndex(p.daily, d);
      Ok(Selection(data,
                   p.currently.temperature + degree, p.currently.apparentTemperature + degree,
                   data.apparentTemperatureMax + degree, data.apparentTemperatureMin + degree))
    case Hourly(h) =>
      var data :- PyIndex(p.hourly, h);
      var today :- PyIndex(p.daily, 0);
      Ok(Selection(data,
                   data.temperature + degree, data.apparentTemperature + degree,
                   today.apparentTemperatureMax + degree, today.apparentTemperatureMin + degree))
    case Current =>
      var today :- PyIndex(p.daily, 0);
      Ok(Selection(p.currently,
                   p.currently.temperature + degree, p.currently.apparentTemperature + degree,
                   today.apparentTemperatureMax + degree, today.apparentTemperatureMin + degree))
  }

  /**
   The branches as the source writes them: the hourly branch reads
   `data["currently"]` from the hourly data point, a key such a point does
   not have, and raises `KeyError`.
   */
  function SelectAsWritten(p: Payload, w: Window, degree: string): (r: Result<Selection>)
    ensures w.Hourly? && r.Ok? ==> false
  {
    match w
    case Hourly(h) =>
      var data :- PyIndex(p.hourly, h);
      var today :- PyIndex(p.daily, 0);
      Err(KeyError("currently"))
    case _ => Select(p, w, degree)
  }

  /** Whenever the hourly window can be read at all, the source fails where the corrected branch succeeds. */
  lemma HourlyBranchAsWrittenFails(p: Payload, h: int, degree: string)
    requires PyIndex(p.hourly, h).Ok? && |p.daily| > 0
    ensures SelectAsWritten(p, Hourly(h), degree) == Err(KeyError("currently"))
    ensures Select(p, Hourly(h), degree).Ok?
  {
  }

  /** `summary.lower()[:-1]`: lower-cased, last character dropped whatever it is. */
  function ConditionBase(summary: string): (b: string)
    ensures |b| == if |summary| == 0 then 0 else |summary| - 1
    ensures forall i :: 0 <= i < |b| ==> b[i] == LowerChar(summary[i])
  {
    var low := Lower(summary);
    if |low| == 0 then "" else low[..|low| - 1]
  }

  /**
   A rule of the condition rewrite: when `s` starts with `pat`, every
   occurrence of `pat` (not only the leading one) becomes `rep`, and `suffix`
   is appended.
   */
  function PrefixRule(s: string, pat: string, rep: string, suffix: string): (r: string)
    requires |pat| > 0
    ensures StartsWith(s, pat) ==> StartsWith(r, rep) && EndsWith(r, suffix)
    ensures !StartsWith(s, pat) ==> r == s
  {
    if StartsWith(s, pat) then
      var replaced := Replace(s, pat, rep);
      StartsWithAppend(replaced, suffix, rep);
      assert (replaced + suffix)[|replaced + suffix| - |suffix|..] == suffix;
      replaced + suffix
    else s
  }

  /** The `possible` rule. */
  function PossibleRule(s: string): (r: string)
    ensures StartsWith(s, "possible") ==> StartsWith(r, "possible to have") && EndsWith(r, " weather")
    ensures !StartsWith(s, "possible") ==> r == s
  {
    PrefixRule(s, "possible", "possible to have", " weather")
  }

  /** The `rain` rule: nothing is appended. */
  function RainRule(s: string): (r: string)
    ensures StartsWith(s, "rain") ==> StartsWith(r, "rainy weather")
    ensures !StartsWith(s, "rain") ==> r == s
    ensures StartsWith(s, "rain") && !Contains(s[4..], "rain") ==> r == "rainy weather" + s[4..]
  {
    if StartsWith(s, "rain") && !Contains(s[4..], "rain") then
      PrefixRuleAtFront(s, "rain", "rainy weather", "");
      PrefixRule(s, "rain", "rainy weather", "")
    else
      PrefixRule(s, "rain", "rainy weather", "")
  }

  /** The `cloudy` rule: appends " weather" to a condition ending in "cloudy". */
  function CloudyRule(s: string): (r: string)
    ensures EndsWith(s, "cloudy") ==> r == s + " weather"
    ensures !EndsWith(s, "cloudy") ==> r == s
  {
    if EndsWith(s, "cloudy") then s + " weather" else s
  }

  /** The `light` rule. */
  function LightRule(s: string): (r: string)
    ensures StartsWith(s, "light") ==> StartsWith(r, "possible to have light") && EndsWith(r, " weather")
    ensures !StartsWith(s, "light") ==> r == s
  {
    PrefixRule(s, "light", "possible to have light", " weather")
  }

  /** The `heavy` rule. */
  function HeavyRule(s: string): (r: string)
    ensures StartsWith(s, "heavy") ==> StartsWith(r, "possible to have heavy") && EndsWith(r, " weather")
    ensures !StartsWith(s, "heavy") ==> r == s
  {
    PrefixRule(s, "heavy", "possible to have heavy", " weather")
  }

  /** The five rules of `forecast`, applied in order, each to the result of the previous. */
  function RewriteCondition(base: string): string {
    HeavyRule(LightRule(CloudyRule(RainRule(PossibleRule(base)))))
  }

  /**
   The rules read one case per prefix: at most one of the four prefix rules
   applies, and only the `cloudy` rule combines with another (with `rain`
   before it, with `light` or `heavy` after it).
   */
  function RewriteBySingleRule(base: string): string {
    if StartsWith(base, "possible") then PossibleRule(base)
    else if StartsWith(base, "rain") then CloudyRule(RainRule(base))
    else if StartsWith(base, "light") then LightRule(CloudyRule(base))
    else if StartsWith(base, "heavy") then HeavyRule(CloudyRule(base))
    else CloudyRule(base)
  }

  /** Two prefixes that differ in their first character cannot both start one string. */
  lemma NotBoth(s: string, a: string, b: string)
    requires |a| > 0 && |b| > 0 && a[0] != b[0]
    requires StartsWith(s, a)
    ensures !StartsWith(s, b)
  {
    assert s[0] == a[0];
  }

  /** Appending keeps a prefix. */
  lemma StartsWithAppend(s: string, t: string, prefix: string)
    requires StartsWith(s, prefix)
    ensures StartsWith(s + t, prefix)
  {
    assert (s + t)[..|prefix|] == s[..|prefix|];
  }

  /** The `cloudy` rule keeps any prefix. */
  lemma CloudyRuleKeepsPrefix(s: string, prefix: string)
    requires StartsWith(s, prefix)
    ensures StartsWith(CloudyRule(s), prefix)
  {
    StartsWithAppend(s, " weather", prefix);
  }

  /** The sequential rules agree with the one-rule-per-prefix reading. */
  lemma RewriteRulesExclusive(base: string)
    ensures RewriteCondition(base) == RewriteBySingleRule(base)
  {
    if StartsWith(base, "possible") {
      var c1 := PossibleRule(base);
      NotBoth(c1, "possible to have", "rain");
      NotBoth(c1, "possible to have", "light");
      NotBoth(c1, "possible to have", "heavy");
      assert !EndsWith(c1, "cloudy") by {
        assert EndsWith(c1, " weather");
        assert c1[|c1| - 1] == 'r';
      }
    } else if StartsWith(base, "rain") {
      NotBoth(base, "rain", "possible");
      var c3 := CloudyRule(RainRule(base));
      CloudyRuleKeepsPrefix(RainRule(base), "rainy weather");
      NotBoth(c3, "rainy weather", "light");
      NotBoth(c3, "rainy weather", "heavy");
    } else if StartsWith(base, "light") {
      NotBoth(base, "light", "possible");
      NotBoth(base, "light", "rain");
      CloudyRuleKeepsPrefix(base, "light");
      NotBoth(LightRule(CloudyRule(base)), "possible to have light", "heavy");
    } else if StartsWith(base, "heavy") {
      NotBoth(base, "heavy", "possible");
      NotBoth(base, "heavy", "rain");
      CloudyRuleKeepsPrefix(base, "heavy");
      NotBoth(CloudyRule(base), "heavy", "light");
    }
  }

  /** The trailing character is dropped whether or not it is a period. */
  lemma ConditionBaseDropsLastCharacter()
    ensures ConditionBase("Clear") == "clea"
  {
    var c := ConditionBase("Clear");
    assert c[0] == LowerChar('C');
  }

  lemma LightRainBase()
    ensures ConditionBase("Light rain.") == "light rain"
  {
    var a := ConditionBase("Light rain.");
    assert a[0] == LowerChar('L');
  }

  lemma HeavyCloudyBase()
    ensures ConditionBase("Heavy cloudy.") == "heavy cloudy"
  {
    var b := ConditionBase("Heavy cloudy.");
    assert b[0] == LowerChar('H');
  }

  /** A prefix rule whose pattern occurs only at the front replaces it there and appends the suffix. */
  lemma PrefixRuleAtFront(s: string, pat: string, rep: string, suffix: string)
    requires |pat| > 0 && StartsWith(s, pat) && !Contains(s[|pat|..], pat)
    ensures PrefixRule(s, pat, rep, suffix) == rep + s[|pat|..] + suffix
  {
    ReplaceOnlyAtFront(s, pat, rep);
  }

  /**
   A `light` condition that does not end in "cloudy" and holds no second
   "light" is rewritten by the `light` rule alone.
   */
  lemma LightRewrite(base: string)
    requires StartsWith(base, "light") && !EndsWith(base, "cloudy")
    requires !Contains(base[5..], "light")
    ensures RewriteCondition(base) == "possible to have light" + base[5..] + " weather"
  {
    RewriteRulesExclusive(base);
    NotBoth(base, "light", "possible");
    NotBoth(base, "light", "rain");
    PrefixRuleAtFront(base, "light", "possible to have light", " weather");
  }

  /**
   A `heavy` condition ending in "cloudy", with no second "heavy", gets
   " weather" from the `cloudy` rule and then again from the `heavy` rule.
   */
  lemma HeavyCloudyRewrite(base: string)
    requires StartsWith(base, "heavy") && EndsWith(base, "cloudy")
    requires !Contains(base[5..] + " weather", "heavy")
    ensures RewriteCondition(base) ==
            "possible to have heavy" + base[5..] + " weather" + " weather"
  {
    RewriteRulesExclusive(base);
    NotBoth(base, "heavy", "possible");
    NotBoth(base, "heavy", "rain");
    var c := CloudyRule(base);
    CloudyRuleKeepsPrefix(base, "heavy");
    assert c[5..] == base[5..] + " weather";
    PrefixRuleAtFront(c, "heavy", "possible to have heavy", " weather");
  }

  /**
   Every "light" is rewritten, not only the leading one: a second "light"
   after a stretch without an `l` becomes "possible to have light" too.
   */
  lemma LightRewriteTwice(a: string, b: string)
    requires 'l' !in a && !Contains(b, "light")
    requires !EndsWith("light" + (a + "light" + b), "cloudy")
    ensures RewriteCondition("light" + (a + "light" + b)) ==
            "possible to have light" + (a + "possible to have light" + b) + " weather"
  {
    var base := "light" + (a + "light" + b);
    assert StartsWith(base, "light") by {
      assert base[..5] == "light";
    }
    RewriteRulesExclusive(base);
    NotBoth(base, "light", "possible");
    NotBoth(base, "light", "rain");
    ReplaceTwoOccurrences("light", a, b, "possible to have light");
  }

  /** "Light snow and light rain." has both of its "light"s rewritten. */
  lemma LightSnowAndLightRainExample()
    ensures RewriteCondition("light snow and light rain") ==
            "possible to have light" + (" snow and " + "possible to have light" + " rain") + " weather"
  {
    var a := " snow and ";
    assert "light snow and light rain" == "light" + (a + "light" + " rain");
    assert 'l' !in a;
    NoLightInRain();
    var base := "light" + (a + "light" + " rain");
    assert base[|base| - 1] == 'n';
    LightRewriteTwice(a, " rain");
  }

  /** No "light" in " rain". */
  lemma NoLightInRain()
    ensures !Contains(" rain", "light")
  {
    forall i | 0 <= i && i + 5 <= 5
      ensures !OccursAt(" rain", "light", i)
    {
      assert " rain"[i..i + 5][0] == ' ';
    }
  }

  /** No "heavy" in " cloudy weather". */
  lemma NoHeavyInTail()
    ensures !Contains(" cloudy weather", "heavy")
  {
    var tail := " cloudy weather";
    assert tail[..11] == " cloudy wea";
    assert 'h' !in " cloudy wea";
    forall i | 0 <= i && i + 5 <= |tail|
      ensures !OccursAt(tail, "heavy", i)
    {
      assert tail[i] == tail[..11][i];
      assert tail[i..i + 5][0] == tail[i];
    }
  }

  /** "Light rain." becomes "possible to have light rain weather". */
  lemma LightRainExample()
    ensures RewriteCondition(ConditionBase("Light rain.")) == "possible to have light" + " rain" + " weather"
  {
    var b := ConditionBase("Light rain.");
    LightRainBase();
    assert b[5..] == " rain";
    assert b[|b| - 1] == 'n';
    NoLightInRain();
    LightRewrite(b);
  }

  /** "Heavy cloudy." becomes "possible to have heavy cloudy weather weather". */
  lemma HeavyCloudyExample()
    ensures RewriteCondition(ConditionBase("Heavy cloudy.")) ==
            "possible to have heavy" + " cloudy" + " weather" + " weather"
  {
    var b := ConditionBase("Heavy cloudy.");
    HeavyCloudyBase();
    assert b[5..] == " cloudy";
    assert b[5..] + " weather" == " cloudy weather";
    NoHeavyInTail();
    HeavyCloudyRewrite(b);
  }

  /** A condition that no rule matches is left as it is. */
  lemma RewriteUnmatched(base: string)
    requires !StartsWith(base, "possible") && !StartsWith(base, "rain")
    requires !StartsWith(base, "light") && !StartsWith(base, "heavy")
    requires !EndsWith(base, "cloudy")
    ensures RewriteCondition(base) == base
  {
    RewriteRulesExclusive(base);
  }

  /** "brighter" below half cloud cover, "darker" from half up. */
  function Sky(cloudCover: real): (r: string)
    ensures r == "brighter" || r == "darker"
    ensures r == "brighter" <==> cloudCover < 0.5
  {
    if cloudCover < 0.5 then "brighter" else "darker"
  }

  /** The 14 fields `forecast` returns, in order. */
  datatype Report = Report(
    zone: Option<string>,
    mode: int,
    temperature: string,
    feelsLike: string,
    maxTemperature: string,
    minTemperature: string,
    humidity: string,
    windSpeed: string,
    summary: string,
    sky: string,
    direction: string,
    partOfDay: string,
    day: Calendar.DayLabel,
    dayNoun: string)

  /** The wall clock at call time: hour of the day and weekday (Monday is 0). */
  datatype Clock = Clock(hour: int, weekday: int)

  /** The zone field a forecast names its place by. */
  const ForecastZone := "city"

  /**
   `forecast`. Offline it answers `None`. Online it locates the place
   (naming it by its `city` field), asks the service in the chosen units,
   reads the selected window, and labels the report. The rewritten
   condition is not part of the report: its summary is the lower-cased
   daily summary.
   */
  function Forecast(online: bool, geo: Location.GeoServices, fetch: (Location.GeoPoint, string) -> Payload,
                    location: Option<string>, days: Option<int>, hours: Option<int>, metric: bool,
                    clock: Clock, pickPart: bool, pickDay: bool): (r: Result<Option<Report>>)
    requires 0 <= clock.weekday < 7
    ensures !online ==> r == Ok(None)
    ensures online && r.Ok? ==> r.value.Some?
    ensures online ==>
              var place := Location.GetCoordinates(geo, location, Some(ForecastZone));
              place.Err? ==> r == Err(place.error)
    ensures online && days == Some(2) && clock.weekday >= 5 ==> r.Err?
    ensures online ==>
              var place := Location.GetCoordinates(geo, location, Some(ForecastZone));
              var u := UnitsFor(metric);
              place.Ok? ==>
                var payload := fetch(place.value.point, u.system);
                var sel := Select(payload, SelectWindow(days, hours), u.degree);
                var day := Calendar.ResolveNumberOfDays(days, clock.weekday, pickDay);
                && (r.Ok? <==> sel.Ok? && day.Ok?)
                && (sel.Err? ==> r == Err(sel.error))
                && (sel.Ok? && day.Err? ==> r == Err(day.error))
                && (r.Ok? ==>
                      var f := r.value.value;
                      var data := sel.value.data;
                      && f.zone == place.value.zone
                      && f.temperature == sel.value.temperature && f.feelsLike == sel.value.feelsLike
                      && f.maxTemperature == sel.value.maxTemperature
                      && f.minTemperature == sel.value.minTemperature
                      && f.humidity == data.humidityPercent + "%"
                      && f.windSpeed == data.windSpeed + " " + u.perHour
                      && f.summary == Lower(payload.dailySummary)
                      && f.sky == Sky(data.cloudCover)
                      && f.direction == WindDirection(data.windBearing)
                      && f.partOfDay == Location.PartOfDay(clock.hour, pickPart)
                      && f.day == day.value)
    ensures r.Ok? && r.value.Some? ==>
              var f := r.value.value;
              var u := UnitsFor(metric);
              && f.mode == ModeTag(SelectWindow(days, hours))
              && (f.dayNoun == "day" <==> days == Some(1))
              && (f.dayNoun == "days" <==> days != Some(1))
              && f.direction in Directions
              && f.partOfDay in Location.PartsOfDay
              && (f.sky == "brighter" || f.sky == "darker")
              && EndsWith(f.temperature, u.degree) && EndsWith(f.feelsLike, u.degree)
              && EndsWith(f.maxTemperature, u.degree) && EndsWith(f.minTemperature, u.degree)
              && EndsWith(f.windSpeed, " " + u.perHour)
  {
    if !online then Ok(None)
    else
      var place :- Location.GetCoordinates(geo, location, Some(ForecastZone));
      var units := UnitsFor(metric);
      var payload := fetch(place.point, units.system);
      var window := SelectWindow(days, hours);
      var sel :- Select(payload, window, units.degree);
      var data := sel.data;
      var day :- Calendar.ResolveNumberOfDays(days, clock.weekday, pickDay);
      Ok(Some(Report(
        place.zone, ModeTag(window),
        sel.temperature, sel.feelsLike, sel.maxTemperature, sel.minTemperature,
        data.humidityPercent + "%", data.windSpeed + " " + units.perHour,
        Lower(payload.dailySummary), Sky(data.cloudCover), WindDirection(data.windBearing),
        Location.PartOfDay(clock.hour, pickPart), day,
        if days == Some(1) then "day" else "days")))
  }

  /** Offline, the answer is `None` whatever is asked. */
  lemma ForecastOffline(geo: Location.GeoServices, fetch: (Location.GeoPoint, string) -> Payload,
                        location: Option<string>, days: Option<int>, hours: Option<int>, metric: bool,
                        clock: Clock, pickPart: bool, pickDay: bool)
    requires 0 <= clock.weekday < 7
    ensures Forecast(false, geo, fetch, location, days, hours, metric, clock, pickPart, pickDay) == Ok(None)
  {
  }

  /** No location and an empty one are the same request: both locate the current position. */
  lemma ForecastNoLocationIsEmpty(online: bool, geo: Location.GeoServices,
                                  fetch: (Location.GeoPoint, string) -> Payload,
                                  days: Option<int>, hours: Option<int>, metric: bool,
                                  clock: Clock, pickPart: bool, pickDay: bool)
    requires 0 <= clock.weekday < 7
    ensures Forecast(online, geo, fetch, None, days, hours, metric, clock, pickPart, pickDay) ==
            Forecast(online, geo, fetch, Some(""), days, hours, metric, clock, pickPart, pickDay)
  {
    Location.GetCoordinatesNoneIsEmpty(geo, Some(ForecastZone));
  }

  /** With a day count of 1 .. 7 the hours asked for make no difference. */
  lemma ForecastIgnoresHoursForDays(online: bool, geo: Location.GeoServices,
                                    fetch: (Location.GeoPoint, string) -> Payload,
                                    location: Option<string>, d: int, h1: Option<int>, h2: Option<int>,
                                    metric: bool, clock: Clock, pickPart: bool, pickDay: bool)
    requires 0 <= clock.weekday < 7 && 1 <= d <= 7
    ensures Forecast(online, geo, fetch, location, Some(d), h1, metric, clock, pickPart, pickDay) ==
            Forecast(online, geo, fetch, location, Some(d), h2, metric, clock, pickPart, pickDay)
  {
    assert SelectWindow(Some(d), h1) == SelectWindow(Some(d), h2);
  }

  /** Days 1 .. 7 win over any hours: both given, the daily window is read. */
  lemma DaysWinOverHours(d: int, h: int)
    requires 1 <= d <= 7
    ensures SelectWindow(Some(d), Some(h)) == Daily(d)
  {
  }
}
