/**
 The location helpers of `pyxa/core/location.py`: picking the coordinates of a
 place, choosing a zone name out of a reverse-geocode answer, labelling the
 part of the day, and building the request of the distance estimate. The
 geocoding and routing services are parameters: their answers are given,
 never fetched.
 */
module Location {
  import opened Wrappers

  datatype GeoPoint = GeoPoint(lat: real, lng: real)

  /** A reverse-geocode answer: field name to value, where a value may be `None`. */
  type ZoneMap = map<string, Option<string>>

  /** The answers of the geocoding service. */
  datatype GeoServices = GeoServices(
    forward: string -> seq<GeoPoint>,      // geocode(address): its results, best first
    current: GeoPoint,                     // geolocate(): the caller's own position
    reverse: GeoPoint -> ZoneMap)          // reverse lookup of a point

  /** The zone fields tried, in order, when no zone is asked for; `suburb` is listed twice. */
  const ZonePriority: seq<string> :=
    ["street", "road", "neighbourhood", "suburb", "city", "town", "suburb", "state", "region", "country"]

  /** `k` is missing from `json` or maps to `None`: the scan passes over it. */
  predicate Absent(json: ZoneMap, k: string) {
    k !in json || json[k].None?
  }

  /** The value of the first of `keys` whose value in `json` is present and not `None`. */
  function FirstListed(json: ZoneMap, keys: seq<string>): (r: Option<string>)
    ensures r.Some? ==>
              exists i :: 0 <= i < |keys| && keys[i] in json && json[keys[i]] == r &&
                          forall j :: 0 <= j < i ==> Absent(json, keys[j])
    ensures r.None? ==> forall i :: 0 <= i < |keys| ==> Absent(json, keys[i])
  {
    if |keys| == 0 then None
    else if keys[0] in json && json[keys[0]].Some? then json[keys[0]]
    else
      var rest := FirstListed(json, keys[1..]);
      assert rest.Some? ==>
               exists i :: 0 <= i < |keys| && keys[i] in json && json[keys[i]] == rest &&
                           forall j :: 0 <= j < i ==> Absent(json, keys[j]) by {
        if rest.Some? {
          var i :| 0 <= i < |keys[1..]| && keys[1..][i] in json && json[keys[1..][i]] == rest &&
                   forall j :: 0 <= j < i ==> Absent(json, keys[1..][j]);
          assert forall j :: 1 <= j < i + 1 ==> keys[j] == keys[1..][j - 1];
        }
      }
      rest
  }

  /**
   `get_zone_name` on the reverse-geocode answer `json`. With a hint the field
   is read as it is (missing: `KeyError`; a `None` value is returned as `None`);
   without one the priority list is scanned.
   */
  function ZoneName(json: ZoneMap, hint: Option<string>): (r: Result<Option<string>>)
    ensures Truthy(hint, "") ==> (r.Ok? <==> hint.value in json)
    ensures Truthy(hint, "") && r.Ok? ==> r.value == json[hint.value]
    ensures Truthy(hint, "") && r.Err? ==> r.error == KeyError(hint.value)
    ensures !Truthy(hint, "") ==> r.Ok?
    ensures !Truthy(hint, "") && r.value.Some? ==>
              exists i :: 0 <= i < |ZonePriority| && ZonePriority[i] in json &&
                          json[ZonePriority[i]] == r.value &&
                          forall j :: 0 <= j < i ==> Absent(json, ZonePriority[j])
    ensures !Truthy(hint, "") && r.value.None? ==>
              forall k :: k in ZonePriority ==> Absent(json, k)
  {
    if Truthy(hint, "") then
      if hint.value in json then Ok(json[hint.value]) else Err(KeyError(hint.value))
    else
      Ok(FirstListed(json, ZonePriority))
  }

  /** The priority list with its second `suburb` removed. */
  const ZonePriorityDeduplicated: seq<string> :=
    ["street", "road", "neighbourhood", "suburb", "city", "town", "state", "region", "country"]

  /** Keys whose values are all absent can be dropped from the front of the scan. */
  lemma {:induction false} SkipAbsentPrefix(json: ZoneMap, a: seq<string>, rest: seq<string>)
    requires forall i :: 0 <= i < |a| ==> Absent(json, a[i])
    ensures FirstListed(json, a + rest) == FirstListed(json, rest)
  {
    if |a| > 0 {
      assert Absent(json, (a + rest)[0]);
      assert (a + rest)[1..] == a[1..] + rest;
      SkipAbsentPrefix(json, a[1..], rest);
    } else {
      assert a + rest == rest;
    }
  }

  /** Once a prefix of the scan has found a value, what follows is never read. */
  lemma {:induction false} PrefixDecides(json: ZoneMap, a: seq<string>, rest: seq<string>)
    requires FirstListed(json, a).Some?
    ensures FirstListed(json, a + rest) == FirstListed(json, a)
  {
    assert |a| > 0;
    if !(a[0] in json && json[a[0]].Some?) {
      assert (a + rest)[1..] == a[1..] + rest;
      PrefixDecides(json, a[1..], rest);
    }
  }

  /** An absent key can be dropped from anywhere in the scan. */
  lemma {:induction false} SkipAbsentKey(json: ZoneMap, a: seq<string>, k: string, b: seq<string>)
    requires Absent(json, k)
    ensures FirstListed(json, a + [k] + b) == FirstListed(json, a + b)
  {
    if |a| == 0 {
      assert a + [k] + b == [k] + b && a + b == b;
      assert ([k] + b)[1..] == b;
    } else {
      assert (a + [k] + b)[1..] == a[1..] + [k] + b;
      assert (a + b)[1..] == a[1..] + b;
      SkipAbsentKey(json, a[1..], k, b);
    }
  }

  /** A key listed a second time never changes the outcome of the scan. */
  lemma RepeatedKeyIsInert(json: ZoneMap, a: seq<string>, k: string, b: seq<string>)
    requires k in a
    ensures FirstListed(json, a + [k] + b) == FirstListed(json, a + b)
  {
    if Absent(json, k) {
      SkipAbsentKey(json, a, k, b);
    } else {
      assert FirstListed(json, a).Some?;
      PrefixDecides(json, a, [k] + b);
      PrefixDecides(json, a, b);
      assert a + [k] + b == a + ([k] + b);
    }
  }

  /** The repeated `suburb` never changes the answer. */
  lemma DuplicateSuburbIsInert(json: ZoneMap)
    ensures FirstListed(json, ZonePriority) == FirstListed(json, ZonePriorityDeduplicated)
  {
    var a := ["street", "road", "neighbourhood", "suburb", "city", "town"];
    var b := ["state", "region", "country"];
    assert ZonePriority == a + ["suburb"] + b;
    assert ZonePriorityDeduplicated == a + b;
    assert a[3] == "suburb";
    RepeatedKeyIsInert(json, a, "suburb", b);
  }

  /** With only a state and a country known, the state is chosen. */
  lemma StateBeforeCountry(x: string, y: string)
    ensures ZoneName(map["state" := Some(x), "country" := Some(y)], None) == Ok(Some(x))
  {
    var json := map["state" := Some(x), "country" := Some(y)];
    assert ZonePriority[..7] == ["street", "road", "neighbourhood", "suburb", "city", "town", "suburb"];
    assert ZonePriority == ZonePriority[..7] + ["state", "region", "country"];
    SkipAbsentPrefix(json, ZonePriority[..7], ["state", "region", "country"]);
  }

  /** An empty string is a value, not an absence: it is returned. */
  lemma EmptyStreetIsReturned(json: ZoneMap)
    requires "street" in json && json["street"] == Some("")
    ensures ZoneName(json, None) == Ok(Some(""))
  {
  }

  /** The thresholds of `pyxa/constants.py`. */
  const Dawn := 5
  const Noon := 12
  const Dusk := 17
  const Dark := 21

  const PartsOfDay := {"morning", "afternoon", "day", "evening", "night"}

  /**
   `get_part_of_day` at `hour` (the clock's hour, 0 .. 23). The two daylight
   windows choose at random between two labels; `pickSecond` is that choice.
   */
  function PartOfDay(hour: int, pickSecond: bool): (r: string)
    ensures r in PartsOfDay
    ensures Dawn <= hour < Noon ==> r in {"morning", "day"}
    ensures Noon <= hour < Dusk ==> r in {"afternoon", "day"}
    ensures Dusk <= hour < Dark ==> r == "evening"
    ensures hour < Dawn || hour >= Dark ==> r == "night"
  {
    if hour >= Dawn && hour < Noon then
      (if pickSecond then "day" else "morning")
    else if hour >= Noon && hour < Dusk then
      (if pickSecond then "day" else "afternoon")
    else if hour >= Dusk && hour < Dark then "evening"
    else "night"
  }

  /** Outside the two daylight windows the random choice has no effect. */
  lemma PartOfDayDeterministicOutsideDaylight(hour: int)
    requires hour < Dawn || hour >= Dusk
    ensures PartOfDay(hour, false) == PartOfDay(hour, true)
  {
  }

  /** What `get_coordinates` returns: the point and the chosen zone. */
  datatype Coordinates = Coordinates(point: GeoPoint, zone: Option<string>)

  /** The point `get_coordinates` looks up: the first geocode result for a non-empty address, else the caller's position. */
  function Locate(geo: GeoServices, location: Option<string>): (r: Result<GeoPoint>)
    ensures Truthy(location, "") ==> (r.Ok? <==> |geo.forward(location.value)| > 0)
    ensures Truthy(location, "") && r.Ok? ==> r.value == geo.forward(location.value)[0]
    ensures Truthy(location, "") && r.Err? ==> r.error == IndexError
    ensures !Truthy(location, "") ==> r == Ok(geo.current)
  {
    if Truthy(location, "") then
      var results := geo.forward(location.value);
      if |results| > 0 then Ok(results[0]) else Err(IndexError)
    else
      Ok(geo.current)
  }

  /** `get_coordinates`: locate the point, then name its zone. */
  function GetCoordinates(geo: GeoServices, location: Option<string>, hint: Option<string>): (r: Result<Coordinates>)
    ensures r.Ok? ==> Locate(geo, location) == Ok(r.value.point)
    ensures r.Ok? ==> ZoneName(geo.reverse(r.value.point), hint) == Ok(r.value.zone)
    ensures r.Err? <==>
              Locate(geo, location).Err? ||
              ZoneName(geo.reverse(Locate(geo, location).value), hint).Err?
  {
    var point :- Locate(geo, location);
    var zone :- ZoneName(geo.reverse(point), hint);
    Ok(Coordinates(point, zone))
  }

  /** No location and an empty one are the same request: both use the caller's own position. */
  lemma GetCoordinatesNoneIsEmpty(geo: GeoServices, hint: Option<string>)
    ensures GetCoordinates(geo, None, hint) == GetCoordinates(geo, Some(""), hint)
    ensures GetCoordinates(geo, None, hint).Ok? ==> GetCoordinates(geo, None, hint).value.point == geo.current
  {
  }

  /** Without a zone hint, naming the zone cannot fail. */
  lemma GetCoordinatesWithoutHint(geo: GeoServices, location: Option<string>)
    requires Locate(geo, location).Ok?
    ensures GetCoordinates(geo, location, None).Ok?
  {
  }

  /** The question put to the routing service. */
  datatype DistanceRequest = DistanceRequest(origin: GeoPoint, destination: GeoPoint, mode: string, units: string)

  /** The service's first row, first element: distance text and duration text. */
  datatype Distance = Distance(distance: string, duration: string)

  /**
   `calculate_distance`: the origin (the caller's position when it is not
   given) and the destination are located, and the routing service is asked
   in metric or imperial units. Its texts are passed through unchanged.
   */
  function CalculateDistance(geo: GeoServices, route: DistanceRequest -> Distance,
                             destination: string, origin: Option<string>,
                             mode: string, metric: bool): (r: Result<Distance>)
    ensures origin.None? && |geo.forward(destination)| > 0 && destination != "" ==>
              r == Ok(route(DistanceRequest(geo.current, geo.forward(destination)[0], mode,
                                            if metric then "metric" else "imperial")))
    ensures r.Ok? ==>
              exists req: DistanceRequest :: r.value == route(req) && req.mode == mode &&
                Locate(geo, origin) == Ok(req.origin) &&
                Locate(geo, Some(destination)) == Ok(req.destination) &&
                (req.units == "metric" <==> metric) &&
                (req.units == "imperial" <==> !metric)
    ensures r.Ok? <==> Locate(geo, origin).Ok? && Locate(geo, Some(destination)).Ok?
    ensures r.Err? ==> r.error == IndexError
  {
    var start :- GetCoordinates(geo, origin, None);
    var end :- GetCoordinates(geo, Some(destination), None);
    var units := if metric then "metric" else "imperial";
    var req := DistanceRequest(start.point, end.point, mode, units);
    Ok(route(req))
  }

  /** An empty origin is treated as no origin: the distance is measured from the caller's position. */
  lemma CalculateDistanceEmptyOrigin(geo: GeoServices, route: DistanceRequest -> Distance,
                                     destination: string, mode: string, metric: bool)
    ensures CalculateDistance(geo, route, destination, None, mode, metric) ==
            CalculateDistance(geo, route, destination, Some(""), mode, metric)
  {
    GetCoordinatesNoneIsEmpty(geo, None);
  }
}
