/** Division of a straight segment into equal parts (`calculate_intermediate_points`). */
module Interpolation {
  import opened Types

  /** Python's `math.ceil` on a real number. */
  function Ceil(x: real): (c: int)
    ensures x <= c as real < x + 1.0
  {
    -((-x).Floor)
  }

  /** `max(2, math.ceil(d / interval))`. */
  function NumDivisions(d: real, interval: real): (n: int)
    requires interval != 0.0
    ensures n >= 2
  {
    var c := Ceil(d / interval);
    if c > 2 then c else 2
  }

  /** The division count is the least integer that is at least 2 and at least `d / interval`. */
  lemma NumDivisionsIsLeast(d: real, interval: real)
    requires interval != 0.0
    ensures d / interval <= NumDivisions(d, interval) as real
    ensures NumDivisions(d, interval) == 2 || (NumDivisions(d, interval) - 1) as real < d / interval
  {
    var c := Ceil(d / interval);
    assert d / interval <= c as real < d / interval + 1.0;
  }

  /** The point at `fraction` of the way from `a` to `b`, coordinate by coordinate. */
  function Lerp(a: LatLon, b: LatLon, fraction: real): LatLon
  {
    LatLon(a.lat + (b.lat - a.lat) * fraction, a.lon + (b.lon - a.lon) * fraction)
  }

  /** The first `count` division points of the segment from `a` to `b` cut into `n` equal parts. */
  function Divisions(a: LatLon, b: LatLon, n: int, count: nat): (r: seq<LatLon>)
    requires n >= 1
    ensures |r| == count
  {
    if count == 0 then [] else Divisions(a, b, n, count - 1) + [Lerp(a, b, (count - 1) as real / n as real)]
  }

  /** Division point `i` lies at fraction `i / n` of the segment. */
  lemma {:induction false} DivisionAt(a: LatLon, b: LatLon, n: int, count: nat, i: nat)
    requires n >= 1 && i < count
    ensures Divisions(a, b, n, count)[i] == Lerp(a, b, i as real / n as real)
    decreases count
  {
    if i < count - 1 {
      DivisionAt(a, b, n, count - 1, i);
    }
  }

  /**
   * `calculate_intermediate_points`: divides the segment from `start` to `end` into
   * `max(2, ceil(d / interval))` equal parts and returns every division point, both
   * endpoints included.
   */
  method CalculateIntermediatePoints(start: LatLon, end: LatLon, interval: real, dist: Distance)
    returns (points: seq<LatLon>)
    requires interval != 0.0
    ensures |points| == NumDivisions(dist(start, end), interval) + 1
    ensures points == Divisions(start, end, |points| - 1, |points|)
    ensures |points| >= 3 && points[0] == start && points[|points| - 1] == end
    ensures forall i :: 0 <= i < |points| ==> points[i] == Lerp(start, end, i as real / (|points| - 1) as real)
  {
    var distance := dist(start, end);
    var n := NumDivisions(distance, interval);
    points := [];
    var i := 0;
    while i < n + 1
      invariant 0 <= i <= n + 1
      invariant points == Divisions(start, end, n, i)
    {
      var fraction := i as real / n as real;
      var lat := start.lat + (end.lat - start.lat) * fraction;
      var lon := start.lon + (end.lon - start.lon) * fraction;
      assert LatLon(lat, lon) == Lerp(start, end, fraction);
      points := points + [LatLon(lat, lon)];
      i := i + 1;
    }
    forall i | 0 <= i < n + 1
      ensures points[i] == Lerp(start, end, i as real / n as real)
    {
      DivisionAt(start, end, n, n + 1, i);
    }
    DivisionEnds(start, end, n);
  }

  /** The first division point is the start of the segment and the last one its end. */
  lemma DivisionEnds(start: LatLon, end: LatLon, n: int)
    requires n >= 1
    ensures Lerp(start, end, 0 as real / n as real) == start
    ensures Lerp(start, end, n as real / n as real) == end
  {
    assert 0 as real / n as real == 0.0;
    assert n as real / n as real == 1.0;
    assert (end.lat - start.lat) * 1.0 == end.lat - start.lat;
    assert (end.lon - start.lon) * 1.0 == end.lon - start.lon;
  }

  /** Consecutive division points are the same step `(end - start) / n` apart in each coordinate. */
  lemma EqualParts(start: LatLon, end: LatLon, n: int, i: int)
    requires n >= 1
    ensures Lerp(start, end, (i + 1) as real / n as real).lat - Lerp(start, end, i as real / n as real).lat
            == (end.lat - start.lat) / n as real
    ensures Lerp(start, end, (i + 1) as real / n as real).lon - Lerp(start, end, i as real / n as real).lon
            == (end.lon - start.lon) / n as real
  {
    var f0 := i as real / n as real;
    var f1 := (i + 1) as real / n as real;
    assert f1 - f0 == 1.0 / n as real;
    var dl := end.lat - start.lat;
    assert dl * f1 - dl * f0 == dl * (f1 - f0);
    var dn := end.lon - start.lon;
    assert dn * f1 - dn * f0 == dn * (f1 - f0);
  }
}
