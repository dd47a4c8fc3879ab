/**
 * The weather pass of `get_route_weather`: one entry per path point, with a latch that stops
 * calling the weather service once it answers without a temperature.
 */
module WeatherAnnotation {
  import opened Types
  import opened RoutePath

  /** The weather record `get_weather_data` returns; a missing key is `None`. */
  datatype Weather = Weather(zipCode: Option<string>, temperatureC: Option<real>,
                             temperatureF: Option<real>, summary: Option<string>)

  const Unavailable: string := "Weather service unavailable"

  /** The record substituted for every point once the service is considered unavailable. */
  function Placeholder(zip: Option<string>): Weather
  {
    Weather(zip, None, None, Some(Unavailable))
  }

  /** An entry of `route_with_weather`. */
  datatype RouteEntry = RouteEntry(pos: LatLon, address: string, isStop: bool,
                                   weather: Option<Weather>, zipCode: Option<string>)

  /** Which outside service a point was looked up with. */
  datatype Lookup = WeatherLookup(at: LatLon) | ZipLookup(at: LatLon)

  /** `get_weather_data(lat, lon)`: no record when no zip code is found or on any error. */
  type WeatherService = LatLon -> Option<Weather>

  /** `get_zip_code(lat, lon)`. */
  type ZipService = LatLon -> Option<string>

  /** A record that switches the latch off: present, but without `temperatureC`. */
  predicate Trips(w: Option<Weather>)
  {
    w.Some? && w.value.temperatureC.None?
  }

  /** `weather_service_available` before point `i` is handled. */
  predicate Available(path: seq<PathPoint>, i: nat, weatherData: WeatherService)
    requires i <= |path|
  {
    i == 0 || (Available(path, i - 1, weatherData) && !Trips(weatherData(path[i - 1].pos)))
  }

  /** The weather attached to point `i`. */
  function WeatherAt(path: seq<PathPoint>, i: nat, weatherData: WeatherService, zipCode: ZipService): Option<Weather>
    requires i < |path|
  {
    if Available(path, i, weatherData) then weatherData(path[i].pos)
    else Some(Placeholder(zipCode(path[i].pos)))
  }

  /** The lookup made for point `i`. */
  function LookupAt(path: seq<PathPoint>, i: nat, weatherData: WeatherService): Lookup
    requires i < |path|
  {
    if Available(path, i, weatherData) then WeatherLookup(path[i].pos) else ZipLookup(path[i].pos)
  }

  /** An entry copies the point and takes its `zip_code` from the weather record, if any. */
  function Entry(p: PathPoint, w: Option<Weather>): RouteEntry
  {
    RouteEntry(p.pos, p.address, p.isStop, w, if w.Some? then w.value.zipCode else None)
  }

  /** The entries for the first `n` points. */
  function Annotated(path: seq<PathPoint>, n: nat, weatherData: WeatherService, zipCode: ZipService): (r: seq<RouteEntry>)
    requires n <= |path|
    ensures |r| == n
  {
    if n == 0 then []
    else Annotated(path, n - 1, weatherData, zipCode) + [Entry(path[n - 1], WeatherAt(path, n - 1, weatherData, zipCode))]
  }

  /** The lookups made for the first `n` points. */
  function Lookups(path: seq<PathPoint>, n: nat, weatherData: WeatherService): (r: seq<Lookup>)
    requires n <= |path|
    ensures |r| == n
  {
    if n == 0 then [] else Lookups(path, n - 1, weatherData) + [LookupAt(path, n - 1, weatherData)]
  }

  /**
   * Builds `route_with_weather`: while the service is available each point is looked up with
   * `get_weather_data`, and a record without `temperatureC` makes it unavailable; after that each
   * point gets the placeholder with the zip code from `get_zip_code`.
   */
  method AnnotateWithWeather(path: seq<PathPoint>, weatherData: WeatherService, zipCode: ZipService)
    returns (route: seq<RouteEntry>, lookups: seq<Lookup>)
    ensures route == Annotated(path, |path|, weatherData, zipCode)
    ensures lookups == Lookups(path, |path|, weatherData)
    ensures |route| == |path| && |lookups| == |path|
    ensures forall k :: 0 <= k < |path| ==>
              route[k].pos == path[k].pos && route[k].address == path[k].address && route[k].isStop == path[k].isStop &&
              route[k].zipCode == (if route[k].weather.Some? then route[k].weather.value.zipCode else None)
  {
    route, lookups := [], [];
    var available := true;
    var i := 0;
    while i < |path|
      invariant 0 <= i <= |path|
      invariant available == Available(path, i, weatherData)
      invariant route == Annotated(path, i, weatherData, zipCode)
      invariant lookups == Lookups(path, i, weatherData)
    {
      var point := path[i];
      var weather: Option<Weather>;
      if available {
        weather := weatherData(point.pos);
        lookups := lookups + [WeatherLookup(point.pos)];
        if weather.Some? && weather.value.temperatureC.None? {
          available := false;
        }
      } else {
        weather := Some(Placeholder(zipCode(point.pos)));
        lookups := lookups + [ZipLookup(point.pos)];
      }
      route := route + [RouteEntry(point.pos, point.address, point.isStop, weather,
                                   if weather.Some? then weather.value.zipCode else None)];
      i := i + 1;
    }
    forall k | 0 <= k < |path|
      ensures route[k] == Entry(path[k], WeatherAt(path, k, weatherData, zipCode))
    {
      AnnotatedAt(path, |path|, k, weatherData, zipCode);
    }
  }

  /** The latch is off exactly after some earlier point's record tripped it; no record does not trip it. */
  lemma {:induction false} AvailableUntilTrip(path: seq<PathPoint>, i: nat, weatherData: WeatherService)
    requires i <= |path|
    ensures Available(path, i, weatherData) <==>
              forall k :: 0 <= k < i ==> !Trips(weatherData(path[k].pos))
  {
    if i > 0 {
      AvailableUntilTrip(path, i - 1, weatherData);
    }
  }

  /** Once off, the latch stays off. */
  lemma {:induction false} LatchMonotone(path: seq<PathPoint>, i: nat, j: nat, weatherData: WeatherService)
    requires i <= j <= |path|
    requires !Available(path, i, weatherData)
    ensures !Available(path, j, weatherData)
  {
    if i < j {
      LatchMonotone(path, i, j - 1, weatherData);
    }
  }

  /** A record that trips the latch switches it off for every later point. */
  lemma OffAfterTrip(path: seq<PathPoint>, t: nat, j: nat, weatherData: WeatherService)
    requires t < j <= |path|
    requires Trips(weatherData(path[t].pos))
    ensures !Available(path, j, weatherData)
  {
    assert !Available(path, t + 1, weatherData);
    LatchMonotone(path, t + 1, j, weatherData);
  }

  /**
   * Entry `k` copies point `k`'s position, address and stop flag, with the weather attached to it
   * and the zip code taken from that record (none without a record).
   */
  lemma {:induction false} AnnotatedAt(path: seq<PathPoint>, n: nat, k: nat, weatherData: WeatherService, zipCode: ZipService)
    requires k < n <= |path|
    ensures Annotated(path, n, weatherData, zipCode)[k] == Entry(path[k], WeatherAt(path, k, weatherData, zipCode))
    decreases n
  {
    if k < n - 1 {
      AnnotatedAt(path, n - 1, k, weatherData, zipCode);
    }
  }

  /** Lookup `k` is the one made for point `k`. */
  lemma {:induction false} LookupsAt(path: seq<PathPoint>, n: nat, k: nat, weatherData: WeatherService)
    requires k < n <= |path|
    ensures Lookups(path, n, weatherData)[k] == LookupAt(path, k, weatherData)
    decreases n
  {
    if k < n - 1 {
      LookupsAt(path, n - 1, k, weatherData);
    }
  }

  /**
   * Once point `t`'s record trips the latch, every later point gets the placeholder with its
   * `get_zip_code` result and is not looked up with the weather service.
   */
  lemma PlaceholderAfterTrip(path: seq<PathPoint>, t: nat, j: nat, weatherData: WeatherService, zipCode: ZipService)
    requires t < j < |path|
    requires Trips(weatherData(path[t].pos))
    ensures Annotated(path, |path|, weatherData, zipCode)[j].weather == Some(Placeholder(zipCode(path[j].pos)))
    ensures Annotated(path, |path|, weatherData, zipCode)[j].zipCode == zipCode(path[j].pos)
    ensures Lookups(path, |path|, weatherData)[j] == ZipLookup(path[j].pos)
  {
    OffAfterTrip(path, t, j, weatherData);
    PlaceholderWhenOff(path, j, weatherData, zipCode);
  }

  /** A point handled while the latch is off gets the placeholder and only a zip-code lookup. */
  lemma PlaceholderWhenOff(path: seq<PathPoint>, j: nat, weatherData: WeatherService, zipCode: ZipService)
    requires j < |path|
    requires !Available(path, j, weatherData)
    ensures Annotated(path, |path|, weatherData, zipCode)[j].weather == Some(Placeholder(zipCode(path[j].pos)))
    ensures Annotated(path, |path|, weatherData, zipCode)[j].zipCode == zipCode(path[j].pos)
    ensures Lookups(path, |path|, weatherData)[j] == ZipLookup(path[j].pos)
  {
    AnnotatedAt(path, |path|, j, weatherData, zipCode);
    LookupsAt(path, |path|, j, weatherData);
  }

  /**
   * Until some record trips the latch, every point is looked up with the weather service and
   * carries exactly the record it returned.
   */
  lemma ServiceRecordsBeforeTrip(path: seq<PathPoint>, j: nat, weatherData: WeatherService, zipCode: ZipService)
    requires j < |path|
    requires forall k :: 0 <= k < j ==> !Trips(weatherData(path[k].pos))
    ensures Annotated(path, |path|, weatherData, zipCode)[j].weather == weatherData(path[j].pos)
    ensures Lookups(path, |path|, weatherData)[j] == WeatherLookup(path[j].pos)
  {
    AnnotatedAt(path, |path|, j, weatherData, zipCode);
    LookupsAt(path, |path|, j, weatherData);
    AvailableUntilTrip(path, j, weatherData);
  }
}
