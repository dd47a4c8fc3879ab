# Route weather planner — a Dafny model of the route-sampling and weather pipeline

The route weather planner is a Flask service. It takes a list of addresses, geocodes them and asks
Google Directions for a driving route. It then keeps route points spaced at least an interval apart
and attaches weather to each kept point. This project models the algorithmic part of
`route-weather-planner/app.py` and proves properties of it. The outside services are inputs. The
handler receives as functions the geodesic distance, the Google geocoder, Nominatim's reverse
lookup, Google Directions, and the handler's two per-point helpers `get_weather_data` and
`get_zip_code`. The reverse geocoder and the weather service's HTTP call have no input of their
own; they are folded into those two helpers. Only `Geocoding.GetZipCode` takes a reverse-geocoder
answer, and it takes it as a single value.

Modules, one per piece of the pipeline:

- `Types` (`types.dfy`): coordinates (`LatLon`, reals), geocoded stops, and the injected distance
  `Distance`. This is the geodesic distance in miles; nothing is assumed about it.
- `Interpolation` (`interpolation.dfy`): `calculate_intermediate_points`. It cuts a straight segment
  into `max(2, ceil(d / interval))` equal parts and returns every division point, both ends
  included. Python's `math.ceil` is `-Floor(-x)` over reals.
- `RouteSampling` (`route_sampling.dfy`): `get_route_points`. It emits the first stop, then for each
  consecutive pair of stops the interior division points as checkpoints (no `address`,
  `is_stop` false), then the next stop. As written, the call at app.py:156-160 passes the outer
  count `num_points` positionally as `interval_distance`. So the leg's distance is divided a
  second time, by that count. The model does exactly this (`LegDivisions`).
- `RoutePath` (`route_path.dfy`): building `route_path` in `get_route_weather`. It starts at the
  origin stop, keeps a step's end location only when it is at least `interval_distance` miles from
  the last kept point, goes leg by leg, and appends the destination stop unless the last kept
  point already has its coordinates.
- `WeatherAnnotation` (`weather.dfy`): the weather pass, with the `weather_service_available` latch.
  The pass returns one entry per path point and the sequence of outside lookups it made.
- `Geocoding` (`geocoding.dfy`): postal-code extraction. The first address component whose `types`
  contains `postal_code` gives the code. Also `get_coordinates_and_zip` and `get_zip_code`, with the
  geocoders' answers as inputs.
- `Planner` (`planner.dfy`): the `/get_route_weather` handler as a whole. It covers validation, the
  geocoding loop, the avoid list, the directions request, the route path and the weather pass. It
  returns the response and the ordered list of helper calls made: one geocoding per address, the
  directions request, and one weather or zip-code lookup per path point.

Each loop of the source is a method with a `while` loop. Its `ensures` ties the result to a
recursive specification function. The properties are lemmas about those functions, and the
important ones also appear in the methods' own `ensures`.

Notes on the code as written:

- Points carry no index; their order in the list is their only position.
- A checkpoint is kept however close it lands to a stop.
- An unlocatable address is answered with a 400 carrying the geocoder's message, an empty
  directions answer with a 400, and a directions exception with a 500.
- Interior points of `route_path` are step ends tagged `is_stop` false, even at waypoints.
- The route may end on a step end rather than on the destination stop, when a kept step already has
  the destination's coordinates.
- `temperatureF` is kept in the placeholder record, as the code builds it.
- `get_route_points` is not called by the handler; it is modelled on its own.

## Model

| member | source | states |
|---|---|---|
| `Interpolation.NumDivisionsIsLeast` | route-weather-planner/app.py:115 | the division count is at least `d / interval`, and is 2 or else the least integer that is |
| `Interpolation.CalculateIntermediatePoints` | route-weather-planner/app.py:109-126 | returns `max(2, ceil(d / interval)) + 1` points, so at least 3; the first is the start, the last is the end, and point `i` lies at fraction `i / n` of the segment |
| `Interpolation.DivisionAt` | route-weather-planner/app.py:118-125 | division point `i` is the point at fraction `i / n` between start and end |
| `Interpolation.DivisionEnds` | route-weather-planner/app.py:118-121 | fraction 0 gives exactly the start and fraction `n / n` exactly the end (over reals) |
| `Interpolation.EqualParts` | route-weather-planner/app.py:118-121 | consecutive division points differ by the same step `(end - start) / n` in each coordinate |
| `RouteSampling.GetRoutePoints` | route-weather-planner/app.py:128-178 | the output starts with the first coordinate's stop and ends with the last coordinate's stop; its stops are exactly the input coordinates, in input order |
| `RouteSampling.AppendCheckpoints` | route-weather-planner/app.py:162-168 | appends the interior division points of a leg, without its two endpoints, as checkpoints |
| `RouteSampling.Checkpoints` | route-weather-planner/app.py:163-168 | a leg contributes `count` checkpoints, none a stop and none with an address |
| `RouteSampling.CheckpointAt` | route-weather-planner/app.py:163-168 | checkpoint `k` of a leg is the division point `k + 1` of that leg |
| `RouteSampling.RoutePointsEnds` | route-weather-planner/app.py:132-176 | the points for the first `n` stops begin with stop 0 and end with stop `n - 1` |
| `RouteSampling.StopsAreCoordinates` | route-weather-planner/app.py:132-176 | the `is_stop` entries of the output are exactly the coordinates, in order, with their lat/lon and address |
| `RouteSampling.AddressIffStop` | route-weather-planner/app.py:133-175 | an output point carries an address exactly when it is a stop |
| `RouteSampling.NoAdjacentStops` | route-weather-planner/app.py:153-168 | no two consecutive output points are both stops: every leg has at least one checkpoint |
| `RouteSampling.EmittedPointsStay` | route-weather-planner/app.py:130-176 | points already appended are never changed by later legs |
| `RouteSampling.LegLayout` | route-weather-planner/app.py:153-176 | stop `i` and stop `i + 1` sit `LegDivisions` apart in the output, so each leg has exactly `max(2, ceil(d / n)) - 1` checkpoints, with `n = max(2, ceil(d / interval))` |
| `RouteSampling.LegCheckpointInOutput` | route-weather-planner/app.py:156-168 | the output point `j` places after stop `i` is the checkpoint at fraction `j / m` of leg `i` |
| `RouteSampling.LegDivisionsBounded` | route-weather-planner/app.py:153-160 | for a positive interval: because the count is passed as the interval, a leg never gets more than `max(2, ceil(interval))` parts, however long it is |
| `RouteSampling.LegOf1000Miles` | route-weather-planner/app.py:146-160 | a 1000-mile leg at interval 10 has outer count 100 but is cut into 10 parts of 100 miles |
| `RoutePath.Thin` | route-weather-planner/app.py:237-266 | the thinned path has at least the origin and at most one point per step more |
| `RoutePath.KeepFarSteps` | route-weather-planner/app.py:248-266 | the inner loop over a leg's steps continues the thinning, and `last_point` stays the last kept point |
| `RoutePath.BuildRoutePath` | route-weather-planner/app.py:234-275 | `route_path` starts with the origin stop, has only non-stop step ends inside, and ends at the destination's coordinates |
| `RoutePath.ThinStartsAtOrigin` | route-weather-planner/app.py:237-244 | `route_path[0]` is the origin stop |
| `RoutePath.ThinKeeps` | route-weather-planner/app.py:263-266 | a step end at least `interval_distance` from the last kept point is appended |
| `RoutePath.ThinSkips` | route-weather-planner/app.py:263-264 | a step end closer than `interval_distance` is dropped |
| `RoutePath.ThinFromExtends` | route-weather-planner/app.py:247-266 | thinning leg by leg is thinning the steps of all legs in order |
| `RoutePath.ThinSpacing` | route-weather-planner/app.py:256-266 | every kept point after the origin is at distance `>= interval_distance` from the point kept before it |
| `RoutePath.ThinKeepsNoStops` | route-weather-planner/app.py:249-254 | kept points after the origin have `is_stop` false |
| `RoutePath.ThinIsSubsequence` | route-weather-planner/app.py:247-266 | the kept step ends are an order-preserving subsequence of the steps, taken leg by leg |
| `RoutePath.Close` | route-weather-planner/app.py:268-275 | the destination stop is appended exactly when the last point's lat/lon differ from it, and the path then ends at the destination's lat/lon |
| `RoutePath.RoutePathShape` | route-weather-planner/app.py:234-275 | the built path ends on the destination stop when the last kept point is elsewhere, and on that kept step end when it coincides with the destination |
| `WeatherAnnotation.AnnotateWithWeather` | route-weather-planner/app.py:278-301 | one entry per path point in order, copying lat/lon/address/is_stop; `zip_code` is the record's or none without a record; the lookups made are the specified ones |
| `WeatherAnnotation.AvailableUntilTrip` | route-weather-planner/app.py:279-285 | the service is still available exactly when no earlier record was present with a null `temperatureC`; a missing record does not trip it |
| `WeatherAnnotation.LatchMonotone` | route-weather-planner/app.py:282-285 | once unavailable, the service stays unavailable for every later point |
| `WeatherAnnotation.OffAfterTrip` | route-weather-planner/app.py:284-285 | a present record with null `temperatureC` makes the service unavailable for every later point |
| `WeatherAnnotation.AnnotatedAt` | route-weather-planner/app.py:294-301 | entry `k` copies point `k` and carries the weather attached to it |
| `WeatherAnnotation.LookupsAt` | route-weather-planner/app.py:282-288 | lookup `k` is the one made for point `k` |
| `WeatherAnnotation.PlaceholderAfterTrip` | route-weather-planner/app.py:282-292 | after a trip every later point gets the placeholder (null temperatures, "Weather service unavailable") with `get_zip_code`'s result, and no weather-service lookup |
| `WeatherAnnotation.PlaceholderWhenOff` | route-weather-planner/app.py:286-292 | a point handled while unavailable gets the placeholder and only a zip-code lookup |
| `WeatherAnnotation.ServiceRecordsBeforeTrip` | route-weather-planner/app.py:282-283 | before any trip, each point is looked up with the weather service and carries exactly its record |
| `Geocoding.FirstPostalIndex` | route-weather-planner/app.py:40-43 | no component before the index is a postal code, and the one at the index is |
| `Geocoding.FindPostalCode` | route-weather-planner/app.py:40-43 | the loop with `break` yields the first postal-code component's `long_name`, or none |
| `Geocoding.FirstPostalCodeIsFirst` | route-weather-planner/app.py:64-66 | no postal code is found exactly when no component is one; otherwise the code is the first such component's name |
| `Geocoding.CoordinatesAndZip` | route-weather-planner/app.py:26-56 | fails exactly when the geocoder raised or found nothing, with the source's messages; otherwise the first result's location, with Google's non-empty postal code or else Nominatim's non-empty postcode |
| `Geocoding.GetCoordinatesAndZip` | route-weather-planner/app.py:26-56 | the imperative lookup agrees with `CoordinatesAndZip` |
| `Geocoding.GetZipCode` | route-weather-planner/app.py:58-75 | Google's first postal-code name if any, else Nominatim's non-empty postcode, else none; an exception gives none |
| `Geocoding.ZipCodeSources` | route-weather-planner/app.py:58-75 | a zip code found comes from a postal-code component of the first reverse result or is Nominatim's non-empty postcode; Nominatim does not matter once Google has one |
| `Planner.ValidationError` | route-weather-planner/app.py:192-196 | a request passes exactly when it has at least 2 addresses and an interval in [1, 100], with the source's two messages, the address count checked first |
| `Planner.AvoidList` | route-weather-planner/app.py:214-218 | `'highways'` is present exactly when preferred, `'tolls'` likewise, `'highways'` first, none when empty |
| `Planner.DirectionsRequestFor` | route-weather-planner/app.py:220-228 | origin, waypoints and destination are the addresses in order, with the preferences passed through |
| `Planner.FirstUnlocated` | route-weather-planner/app.py:199-203 | the index found is an address that cannot be located, or the end |
| `Planner.FirstUnlocatedFromIsFirst` | route-weather-planner/app.py:199-203 | every address before that index can be located |
| `Planner.LocatedStop` | route-weather-planner/app.py:199-209 | coordinate `j` is the located position of address `j`, with that address |
| `Planner.GeocodeCallsInOrder` | route-weather-planner/app.py:200-201 | the addresses are geocoded in order |
| `Planner.LookupCalls` | route-weather-planner/app.py:281-292 | the weather pass's calls are its lookups, in order |
| `Planner.LocateAll` | route-weather-planner/app.py:198-209 | stops at the first address that cannot be located, with its error and one geocoding call per address up to it; otherwise all coordinates |
| `Planner.GetRouteWeather` | route-weather-planner/app.py:185-311 | agrees with `Handle`; a failed validation answers 400 before any outside call, and otherwise the first outside call geocodes the first address |

## Left out

- Flask routing, `render_template`, `jsonify` and HTTP status plumbing are left out. The response is
  a `BadRequest`, `ServerError` or `RouteWeather` value. The `/`, `/weather/<zip_code>` and
  `/test-weather-connection` endpoints are web glue.
- `gmaps.geocode`, `gmaps.directions` and `geolocator.reverse` are foreign network calls. Each is an
  input function whose answer is a value or a raised exception. `gmaps.reverse_geocode` is an input
  only to `Geocoding.GetZipCode`, as one answer value (a result list or a raised exception).
  `requests.get` has no input of its own: it is folded into the `get_weather_data` input below.
- `get_weather_data` (app.py:77-107) is an input function from a point to an optional record. Its
  own use of `requests.get` and its fallback record are network handling. The weather and zip
  lookups are deterministic functions of the point, so a repeated point gets the same answer.
- The real geodesic distance is an uninterpreted `Distance`, and float rounding of the
  interpolation is left out. Coordinates and distances are exact reals.
- Configuration loading (`load_dotenv`, `os.getenv`, client construction) and `print` logging are
  left out.
- Exceptions other than those of the outside calls are left out. A non-JSON body or a non-numeric
  `interval_distance` reaches the outer `except` (app.py:309-311) as a 500 with the bare message. A
  directions answer missing keys raises inside the inner `try`, and the inner `except`
  (app.py:305-307) answers it as a 500 "Error calculating route: …".
- The helper-call trace records one call per helper the handler uses, not every network request
  behind it. Two kinds of request are left out. During geocoding, `get_coordinates_and_zip` may also
  call Nominatim's `geolocator.reverse` (app.py:46-52). Each weather-pass lookup stands for
  `gmaps.reverse_geocode`, possibly `geolocator.reverse`, and then `requests.get` (app.py:62, 69, 85,
  91).
- WeatherAnnotation.AnnotateWithWeather: the weather service and the zip-code service are
  independent inputs. In the source, `get_weather_data` takes its zip code from `get_zip_code`
  (app.py:85) and returns no record without one (app.py:86-88), so a present record's `zip_code`
  equals `get_zip_code`'s answer at that point. The model does not keep that link, and
  `Geocoding.GetZipCode` is not wired into the weather pass.
- Interpolation.CalculateIntermediatePoints: requires a non-zero interval, because Python raises
  `ZeroDivisionError` at zero. Its only caller passes a count of at least 2.
- RouteSampling.GetRoutePoints: requires at least one coordinate, because the source raises
  `IndexError` on an empty list. It requires a non-zero interval only when there are two or more
  coordinates: then the first leg divides by it and raises `ZeroDivisionError` at zero. A single
  coordinate at interval zero is accepted, and the output is just its stop.
