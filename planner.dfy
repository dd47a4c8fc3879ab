/**
 * The `/get_route_weather` handler: validation, geocoding of every address, the directions
 * request, the thinned route path and the weather pass, with every outside service an input.
 */
module Planner {
  import opened Types
  import opened RoutePath
  import opened WeatherAnnotation
  import opened Geocoding

  /** The request's `preferences`; a missing key is false. */
  datatype Preferences = Preferences(avoidHighways: bool, avoidTolls: bool, optimizeRoute: bool)

  /** The request body; a missing `interval_distance` is `None`. */
  datatype Request = Request(addresses: seq<string>, interval: Option<real>, preferences: Preferences)

  /** The arguments given to `gmaps.directions` (driving, no alternatives). */
  datatype DirectionsRequest = DirectionsRequest(origin: string, destination: string, waypoints: seq<string>,
                                                 optimizeWaypoints: bool, avoid: Option<seq<string>>)

  /** The handler's answer: a 400 error, a 500 error, or the annotated route. */
  datatype Response = BadRequest(message: string) | ServerError(message: string) | RouteWeather(route: seq<RouteEntry>)

  /**
   * A helper call the handler makes, in order: a geocoding of one address, the directions
   * request, or the weather-pass lookup of one point.
   */
  datatype Call = GeocodeCall(address: string) | DirectionsCall(request: DirectionsRequest) | LookupCall(lookup: Lookup)

  /** The handler's response together with the helper calls it made. */
  datatype Outcome = Outcome(response: Response, calls: seq<Call>)

  /** `gmaps.geocode(address)`. */
  type GeocodeService = string -> Reply<seq<GeocodeResult>>

  /** `gmaps.directions(...)`: the routes found, each a list of legs, each a list of steps. */
  type DirectionsService = DirectionsRequest -> Reply<seq<seq<seq<Step>>>>

  const DefaultInterval: real := 10.0

  function IntervalOf(req: Request): real
  {
    if req.interval.Some? then req.interval.value else DefaultInterval
  }

  /** The 400 error the request is rejected with before any outside call, if any. */
  function ValidationError(req: Request): (e: Option<string>)
    ensures e.None? <==> |req.addresses| >= 2 && 1.0 <= IntervalOf(req) <= 100.0
    ensures |req.addresses| < 2 ==> e == Some("At least two addresses are required")
    ensures |req.addresses| >= 2 && e.Some? ==> e == Some("Interval distance must be between 1 and 100 miles")
  {
    if |req.addresses| < 2 then Some("At least two addresses are required")
    else if IntervalOf(req) < 1.0 || IntervalOf(req) > 100.0 then Some("Interval distance must be between 1 and 100 miles")
    else None
  }

  /** The `avoid` argument: `'highways'` before `'tolls'`, each exactly when preferred, none when empty. */
  function AvoidList(p: Preferences): (r: Option<seq<string>>)
    ensures r.None? <==> !p.avoidHighways && !p.avoidTolls
    ensures r.Some? ==> ("highways" in r.value <==> p.avoidHighways) && ("tolls" in r.value <==> p.avoidTolls)
    ensures r.Some? ==> |r.value| <= 2 && (|r.value| == 2 ==> r.value == ["highways", "tolls"])
  {
    var avoid := (if p.avoidHighways then ["highways"] else []) + (if p.avoidTolls then ["tolls"] else []);
    if avoid == [] then None else Some(avoid)
  }

  /** The directions request for the addresses: first to last, the ones between as waypoints. */
  function DirectionsRequestFor(req: Request): (d: DirectionsRequest)
    requires |req.addresses| >= 2
    ensures [d.origin] + d.waypoints + [d.destination] == req.addresses
    ensures d.optimizeWaypoints == req.preferences.optimizeRoute && d.avoid == AvoidList(req.preferences)
  {
    var a := req.addresses;
    DirectionsRequest(a[0], a[|a| - 1], a[1..|a| - 1], req.preferences.optimizeRoute, AvoidList(req.preferences))
  }

  /** `get_coordinates_and_zip(address)`. */
  function Locate(address: string, geocoder: GeocodeService, nominatim: NominatimService): Result<(LatLon, Option<string>), string>
  {
    CoordinatesAndZip(address, geocoder(address), nominatim)
  }

  /** The index of the first address from `i` on that cannot be located, or `|addresses|` when all can. */
  function FirstUnlocatedFrom(addresses: seq<string>, i: nat, geocoder: GeocodeService, nominatim: NominatimService): (k: nat)
    requires i <= |addresses|
    ensures i <= k <= |addresses|
    ensures k < |addresses| ==> Locate(addresses[k], geocoder, nominatim).Err?
    decreases |addresses| - i
  {
    if i == |addresses| then i
    else if Locate(addresses[i], geocoder, nominatim).Err? then i
    else FirstUnlocatedFrom(addresses, i + 1, geocoder, nominatim)
  }

  /** The index of the first address that cannot be located, or `|addresses|` when all can. */
  function FirstUnlocated(addresses: seq<string>, geocoder: GeocodeService, nominatim: NominatimService): (k: nat)
    ensures k <= |addresses|
    ensures k < |addresses| ==> Locate(addresses[k], geocoder, nominatim).Err?
  {
    FirstUnlocatedFrom(addresses, 0, geocoder, nominatim)
  }

  /** Every address before the first unlocated one can be located, and that one cannot. */
  lemma {:induction false} FirstUnlocatedFromIsFirst(addresses: seq<string>, i: nat, geocoder: GeocodeService,
                                                    nominatim: NominatimService)
    requires i <= |addresses|
    ensures forall j :: i <= j < FirstUnlocatedFrom(addresses, i, geocoder, nominatim) ==>
              Locate(addresses[j], geocoder, nominatim).Ok?
    decreases |addresses| - i
  {
    if i < |addresses| && Locate(addresses[i], geocoder, nominatim).Ok? {
      FirstUnlocatedFromIsFirst(addresses, i + 1, geocoder, nominatim);
    }
  }

  /** `coordinates` for the first `n` addresses, all of which can be located. */
  function Located(addresses: seq<string>, n: nat, geocoder: GeocodeService, nominatim: NominatimService): (r: seq<Stop>)
    requires n <= FirstUnlocated(addresses, geocoder, nominatim)
    ensures |r| == n
  {
    if n == 0 then []
    else
      FirstUnlocatedFromIsFirst(addresses, 0, geocoder, nominatim);
      Located(addresses, n - 1, geocoder, nominatim) + [Stop(Locate(addresses[n - 1], geocoder, nominatim).value.0, addresses[n - 1])]
  }

  /** Stop `j` is the located position of address `j`, paired with that address. */
  lemma {:induction false} LocatedStop(addresses: seq<string>, n: nat, j: nat, geocoder: GeocodeService, nominatim: NominatimService)
    requires j < n <= FirstUnlocated(addresses, geocoder, nominatim)
    ensures Locate(addresses[j], geocoder, nominatim).Ok?
    ensures Located(addresses, n, geocoder, nominatim)[j] == Stop(Locate(addresses[j], geocoder, nominatim).value.0, addresses[j])
    decreases n
  {
    if j < n - 1 {
      LocatedStop(addresses, n - 1, j, geocoder, nominatim);
    } else {
      FirstUnlocatedFromIsFirst(addresses, 0, geocoder, nominatim);
    }
  }

  /** One geocoder call for each of the first `n` addresses, in order. */
  function GeocodeCalls(addresses: seq<string>, n: nat): (r: seq<Call>)
    requires n <= |addresses|
    ensures |r| == n
  {
    if n == 0 then [] else GeocodeCalls(addresses, n - 1) + [GeocodeCall(addresses[n - 1])]
  }

  /** The `j`-th geocoder call is for the `j`-th address. */
  lemma {:induction false} GeocodeCallsInOrder(addresses: seq<string>, n: nat)
    requires n <= |addresses|
    ensures forall j :: 0 <= j < n ==> GeocodeCalls(addresses, n)[j] == GeocodeCall(addresses[j])
  {
    if n > 0 {
      GeocodeCallsInOrder(addresses, n - 1);
    }
  }

  /** The weather-pass lookups, as calls. */
  function LookupCalls(lookups: seq<Lookup>): (r: seq<Call>)
    ensures |r| == |lookups|
    ensures forall j :: 0 <= j < |lookups| ==> r[j] == LookupCall(lookups[j])
  {
    if lookups == [] then [] else LookupCalls(lookups[..|lookups| - 1]) + [LookupCall(lookups[|lookups| - 1])]
  }

  /** The outcome of the handler once every address is located and the directions service answered with routes. */
  function Annotate(stops: seq<Stop>, route: seq<seq<Step>>, interval: real, weatherData: WeatherService,
                    zipCode: ZipService, dist: Distance): Outcome
    requires |stops| >= 2
  {
    var path := RoutePathOf(stops[0], stops[|stops| - 1], route, interval, dist);
    Outcome(RouteWeather(Annotated(path, |path|, weatherData, zipCode)), LookupCalls(Lookups(path, |path|, weatherData)))
  }

  /** What `get_route_weather` answers for `req`, and the outside calls it makes. */
  function Handle(req: Request, geocoder: GeocodeService, nominatim: NominatimService, directions: DirectionsService,
                  weatherData: WeatherService, zipCode: ZipService, dist: Distance): Outcome
  {
    if ValidationError(req).Some? then Outcome(BadRequest(ValidationError(req).value), [])
    else
      var a := req.addresses;
      var k := FirstUnlocated(a, geocoder, nominatim);
      if k < |a| then Outcome(BadRequest(Locate(a[k], geocoder, nominatim).error), GeocodeCalls(a, k + 1))
      else
        var d := DirectionsRequestFor(req);
        var before := GeocodeCalls(a, |a|) + [DirectionsCall(d)];
        match directions(d)
        case Raised(msg) => Outcome(ServerError("Error calculating route: " + msg), before)
        case Answered(routes) =>
          if routes == [] then Outcome(BadRequest("Could not calculate route"), before)
          else
            var rest := Annotate(Located(a, |a|, geocoder, nominatim), routes[0], IntervalOf(req), weatherData, zipCode, dist);
            Outcome(rest.response, before + rest.calls)
  }

  /** The geocoding loop: stops at the first address that cannot be located. */
  method LocateAll(addresses: seq<string>, geocoder: GeocodeService, nominatim: NominatimService)
    returns (coords: Result<seq<Stop>, string>, calls: seq<Call>)
    ensures FirstUnlocated(addresses, geocoder, nominatim) < |addresses| ==>
              coords == Err(Locate(addresses[FirstUnlocated(addresses, geocoder, nominatim)], geocoder, nominatim).error) &&
              calls == GeocodeCalls(addresses, FirstUnlocated(addresses, geocoder, nominatim) + 1)
    ensures FirstUnlocated(addresses, geocoder, nominatim) == |addresses| ==>
              coords == Ok(Located(addresses, |addresses|, geocoder, nominatim)) && calls == GeocodeCalls(addresses, |addresses|)
  {
    var stops: seq<Stop> := [];
    calls := [];
    var i := 0;
    while i < |addresses|
      invariant 0 <= i <= |addresses|
      invariant FirstUnlocatedFrom(addresses, i, geocoder, nominatim) == FirstUnlocated(addresses, geocoder, nominatim)
      invariant stops == Located(addresses, i, geocoder, nominatim)
      invariant calls == GeocodeCalls(addresses, i)
    {
      var address := addresses[i];
      var located := GetCoordinatesAndZip(address, geocoder(address), nominatim);
      calls := calls + [GeocodeCall(address)];
      if located.Err? {
        return Err(located.error), calls;
      }
      stops := stops + [Stop(located.value.0, address)];
      i := i + 1;
    }
    coords := Ok(stops);
  }

  /**
   * `get_route_weather`: validates the request, locates every address, asks for directions and
   * builds the weather-annotated route path from the first route's legs.
   */
  method GetRouteWeather(req: Request, geocoder: GeocodeService, nominatim: NominatimService, directions: DirectionsService,
                         weatherData: WeatherService, zipCode: ZipService, dist: Distance)
    returns (response: Response, calls: seq<Call>)
    ensures Outcome(response, calls) == Handle(req, geocoder, nominatim, directions, weatherData, zipCode, dist)
    ensures ValidationError(req).Some? ==> response == BadRequest(ValidationError(req).value) && calls == []
    ensures ValidationError(req).None? ==> |calls| >= 1 && calls[0] == GeocodeCall(req.addresses[0])
  {
    var error := ValidationError(req);
    if error.Some? {
      return BadRequest(error.value), [];
    }
    var coordinates;
    coordinates, calls := LocateAll(req.addresses, geocoder, nominatim);
    GeocodeCallsInOrder(req.addresses, |calls|);
    if coordinates.Err? {
      return BadRequest(coordinates.error), calls;
    }
    var coords := coordinates.value;
    var d := DirectionsRequestFor(req);
    calls := calls + [DirectionsCall(d)];
    var directionsResult := directions(d);
    if directionsResult.Raised? {
      return ServerError("Error calculating route: " + directionsResult.message), calls;
    }
    if directionsResult.value == [] {
      return BadRequest("Could not calculate route"), calls;
    }
    var routePath := BuildRoutePath(coords[0], coords[|coords| - 1], directionsResult.value[0], IntervalOf(req), dist);
    var route, lookups := AnnotateWithWeather(routePath, weatherData, zipCode);
    response := RouteWeather(route);
    calls := calls + LookupCalls(lookups);
  }
}
