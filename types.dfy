/** Values shared by every stage of the route-weather pipeline. */
module Types {

  datatype Option<T> = None | Some(value: T)

  datatype Result<T, E> = Ok(value: T) | Err(error: E)

  /** A geographic coordinate, the `lat`/`lon` pair of the planner's point dictionaries. */
  datatype LatLon = LatLon(lat: real, lon: real)

  /** The geodesic distance in miles between two coordinates; an input to every stage that measures. */
  type Distance = (LatLon, LatLon) -> real

  /** A geocoded user address: an entry of `coordinates` in the request handler. */
  datatype Stop = Stop(pos: LatLon, address: string)
}
