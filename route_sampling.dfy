/** `get_route_points`: the stops in order, with interpolated checkpoints between each consecutive pair. */
module RouteSampling {
  import opened Types
  import opened Interpolation

  /** A point of `all_points`: checkpoints carry no `address` key. */
  datatype RoutePoint = RoutePoint(pos: LatLon, address: Option<string>, isStop: bool)

  function SampleStop(c: Stop): RoutePoint
  {
    RoutePoint(c.pos, Some(c.address), true)
  }

  function SampleCheckpoint(p: LatLon): RoutePoint
  {
    RoutePoint(p, None, false)
  }

  /**
   * The number of parts a leg is divided into, as the source computes it: the outer count
   * `max(2, ceil(d / interval))` is passed positionally as the `interval_distance` of
   * `calculate_intermediate_points`, which divides the same distance by it once more.
   */
  function LegDivisions(a: Stop, b: Stop, interval: real, dist: Distance): (m: int)
    requires interval != 0.0
    ensures m >= 2
  {
    var d := dist(a.pos, b.pos);
    NumDivisions(d, NumDivisions(d, interval) as real)
  }

  /** The first `count` interior division points of a leg divided into `m` parts, as checkpoints. */
  function Checkpoints(a: LatLon, b: LatLon, m: int, count: nat): (r: seq<RoutePoint>)
    requires m >= 1
    ensures |r| == count
    ensures forall k :: 0 <= k < count ==> !r[k].isStop && r[k].address.None?
  {
    if count == 0 then []
    else Checkpoints(a, b, m, count - 1) + [SampleCheckpoint(Lerp(a, b, count as real / m as real))]
  }

  lemma {:induction false} CheckpointAt(a: LatLon, b: LatLon, m: int, count: nat, k: nat)
    requires m >= 1 && k < count
    ensures Checkpoints(a, b, m, count)[k] == SampleCheckpoint(Lerp(a, b, (k + 1) as real / m as real))
    decreases count
  {
    if k < count - 1 {
      CheckpointAt(a, b, m, count - 1, k);
    }
  }

  /** What one iteration of the outer loop appends: the interior division points, then the next stop. */
  function LegPoints(a: Stop, b: Stop, interval: real, dist: Distance): seq<RoutePoint>
    requires interval != 0.0
  {
    var m := LegDivisions(a, b, interval, dist);
    Checkpoints(a.pos, b.pos, m, m - 1) + [SampleStop(b)]
  }

  /** The points emitted for the first `n` stops: the first stop, then one leg per later stop. */
  function RoutePoints(coords: seq<Stop>, n: nat, interval: real, dist: Distance): (r: seq<RoutePoint>)
    requires 1 <= n <= |coords| && (n >= 2 ==> interval != 0.0)
    ensures |r| >= n
  {
    if n == 1 then [SampleStop(coords[0])]
    else RoutePoints(coords, n - 1, interval, dist) + LegPoints(coords[n - 2], coords[n - 1], interval, dist)
  }

  /** The output starts with the first stop and ends with the last stop handled. */
  lemma {:induction false} RoutePointsEnds(coords: seq<Stop>, n: nat, interval: real, dist: Distance)
    requires 1 <= n <= |coords| && (n >= 2 ==> interval != 0.0)
    ensures RoutePoints(coords, n, interval, dist)[0] == SampleStop(coords[0])
    ensures RoutePoints(coords, n, interval, dist)[|RoutePoints(coords, n, interval, dist)| - 1] == SampleStop(coords[n - 1])
  {
    if n > 1 {
      RoutePointsEnds(coords, n - 1, interval, dist);
      var p := RoutePoints(coords, n - 1, interval, dist);
      var leg := LegPoints(coords[n - 2], coords[n - 1], interval, dist);
      assert RoutePoints(coords, n, interval, dist) == p + leg;
      assert (p + leg)[0] == p[0];
    }
  }

  /**
   * `get_route_points`: emits the first stop, then for every consecutive pair of stops the
   * interior points of the leg (as checkpoints) followed by the second stop.
   */
  method GetRoutePoints(coords: seq<Stop>, interval: real, dist: Distance)
    returns (allPoints: seq<RoutePoint>)
    requires |coords| >= 1 && (|coords| >= 2 ==> interval != 0.0)
    ensures allPoints == RoutePoints(coords, |coords|, interval, dist)
    ensures allPoints[0] == SampleStop(coords[0]) && allPoints[|allPoints| - 1] == SampleStop(coords[|coords| - 1])
    ensures Stops(allPoints) == CoordinateStops(coords, |coords|)
    ensures |coords| == 1 ==> allPoints == [SampleStop(coords[0])]
  {
    allPoints := [SampleStop(coords[0])];
    var i := 0;
    while i < |coords| - 1
      invariant 0 <= i <= |coords| - 1
      invariant allPoints == RoutePoints(coords, i + 1, interval, dist)
    {
      assert |coords| >= 2 && interval != 0.0;
      var start := coords[i];
      var end := coords[i + 1];
      var distance := dist(start.pos, end.pos);
      var numPoints := NumDivisions(distance, interval);
      var intermediate := CalculateIntermediatePoints(start.pos, end.pos, numPoints as real, dist);
      ghost var before := allPoints;
      allPoints := AppendCheckpoints(allPoints, intermediate, start.pos, end.pos);
      allPoints := allPoints + [SampleStop(end)];
      assert allPoints == before + LegPoints(start, end, interval, dist);
      i := i + 1;
    }
    RoutePointsEnds(coords, |coords|, interval, dist);
    StopsAreCoordinates(coords, |coords|, interval, dist);
  }

  /**
   * The inner loop of `get_route_points`: appends the interior points of one leg's division,
   * without the two endpoints, as checkpoints.
   */
  method AppendCheckpoints(allPoints: seq<RoutePoint>, intermediate: seq<LatLon>, a: LatLon, b: LatLon)
    returns (r: seq<RoutePoint>)
    requires |intermediate| >= 3
    requires intermediate == Divisions(a, b, |intermediate| - 1, |intermediate|)
    ensures r == allPoints + Checkpoints(a, b, |intermediate| - 1, |intermediate| - 2)
  {
    r := allPoints;
    var j := 1;
    while j < |intermediate| - 1
      invariant 1 <= j <= |intermediate| - 1
      invariant r == allPoints + Checkpoints(a, b, |intermediate| - 1, j - 1)
    {
      DivisionAt(a, b, |intermediate| - 1, |intermediate|, j);
      r := r + [SampleCheckpoint(intermediate[j])];
      j := j + 1;
    }
  }

  /** The `is_stop` entries of a list of points, in order. */
  function Stops(ps: seq<RoutePoint>): seq<RoutePoint>
  {
    if ps == [] then []
    else Stops(ps[..|ps| - 1]) + (if ps[|ps| - 1].isStop then [ps[|ps| - 1]] else [])
  }

  lemma {:induction false} StopsAppend(a: seq<RoutePoint>, b: seq<RoutePoint>)
    ensures Stops(a + b) == Stops(a) + Stops(b)
    decreases |b|
  {
    if b == [] {
      assert a + b == a;
    } else {
      var b' := b[..|b| - 1];
      assert (a + b)[..|a + b| - 1] == a + b';
      StopsAppend(a, b');
    }
  }

  lemma {:induction false} StopsOfCheckpoints(cs: seq<RoutePoint>)
    requires forall k :: 0 <= k < |cs| ==> !cs[k].isStop
    ensures Stops(cs) == []
    decreases |cs|
  {
    if cs != [] {
      StopsOfCheckpoints(cs[..|cs| - 1]);
    }
  }

  /** The only stop of a leg is its end. */
  lemma StopsOfLeg(a: Stop, b: Stop, interval: real, dist: Distance)
    requires interval != 0.0
    ensures Stops(LegPoints(a, b, interval, dist)) == [SampleStop(b)]
  {
    var m := LegDivisions(a, b, interval, dist);
    var cs := Checkpoints(a.pos, b.pos, m, m - 1);
    var leg := cs + [SampleStop(b)];
    StopsOfCheckpoints(cs);
    assert leg[..|leg| - 1] == cs;
  }

  /** Each leg adds exactly its end stop to the stops emitted so far. */
  lemma StopsOfNextLeg(coords: seq<Stop>, n: nat, interval: real, dist: Distance)
    requires 2 <= n <= |coords| && interval != 0.0
    ensures Stops(RoutePoints(coords, n, interval, dist))
            == Stops(RoutePoints(coords, n - 1, interval, dist)) + [SampleStop(coords[n - 1])]
  {
    var prev := RoutePoints(coords, n - 1, interval, dist);
    var leg := LegPoints(coords[n - 2], coords[n - 1], interval, dist);
    assert RoutePoints(coords, n, interval, dist) == prev + leg;
    StopsOfLeg(coords[n - 2], coords[n - 1], interval, dist);
    StopsAppend(prev, leg);
  }

  /** The first `n` coordinates as stops. */
  function CoordinateStops(coords: seq<Stop>, n: nat): (r: seq<RoutePoint>)
    requires n <= |coords|
    ensures |r| == n
    ensures forall i :: 0 <= i < n ==> r[i] == SampleStop(coords[i])
  {
    if n == 0 then [] else CoordinateStops(coords, n - 1) + [SampleStop(coords[n - 1])]
  }

  /** The stops among the points for the first `n` stops are exactly those stops, in input order. */
  lemma {:induction false} StopsAreCoordinates(coords: seq<Stop>, n: nat, interval: real, dist: Distance)
    requires 1 <= n <= |coords| && (n >= 2 ==> interval != 0.0)
    ensures Stops(RoutePoints(coords, n, interval, dist)) == CoordinateStops(coords, n)
  {
    if n == 1 {
      assert Stops([SampleStop(coords[0])]) == Stops([]) + [SampleStop(coords[0])];
    } else {
      StopsOfNextLeg(coords, n, interval, dist);
      StopsAreCoordinates(coords, n - 1, interval, dist);
    }
  }

  /** A point carries an address exactly when it is a stop: checkpoints have none. */
  lemma {:induction false} AddressIffStop(coords: seq<Stop>, n: nat, interval: real, dist: Distance)
    requires 1 <= n <= |coords| && (n >= 2 ==> interval != 0.0)
    ensures forall k :: 0 <= k < |RoutePoints(coords, n, interval, dist)| ==>
              (RoutePoints(coords, n, interval, dist)[k].address.Some?
               <==> RoutePoints(coords, n, interval, dist)[k].isStop)
  {
    if n > 1 {
      AddressIffStop(coords, n - 1, interval, dist);
    }
  }

  /** Between every pair of consecutive stops there is at least one checkpoint. */
  lemma {:induction false} NoAdjacentStops(coords: seq<Stop>, n: nat, interval: real, dist: Distance)
    requires 1 <= n <= |coords| && (n >= 2 ==> interval != 0.0)
    ensures forall k :: 0 <= k < |RoutePoints(coords, n, interval, dist)| - 1 ==>
              !(RoutePoints(coords, n, interval, dist)[k].isStop
                && RoutePoints(coords, n, interval, dist)[k + 1].isStop)
  {
    if n > 1 {
      var p := RoutePoints(coords, n - 1, interval, dist);
      var leg := LegPoints(coords[n - 2], coords[n - 1], interval, dist);
      NoAdjacentStops(coords, n - 1, interval, dist);
      assert !leg[0].isStop;
      var r := p + leg;
      forall k | 0 <= k < |r| - 1
        ensures !(r[k].isStop && r[k + 1].isStop)
      {
        if k + 1 == |p| {
          assert r[k + 1] == leg[0];
        } else if k >= |p| {
          assert r[k] == leg[k - |p|] && r[k + 1] == leg[k + 1 - |p|];
        } else {
          assert r[k] == p[k] && r[k + 1] == p[k + 1];
        }
      }
    }
  }

  /** Points already emitted are never changed by the legs emitted after them. */
  lemma {:induction false} EmittedPointsStay(coords: seq<Stop>, j: nat, n: nat, k: nat, interval: real, dist: Distance)
    requires 1 <= j <= n <= |coords| && (n >= 2 ==> interval != 0.0)
    requires k < |RoutePoints(coords, j, interval, dist)|
    ensures k < |RoutePoints(coords, n, interval, dist)|
    ensures RoutePoints(coords, n, interval, dist)[k] == RoutePoints(coords, j, interval, dist)[k]
    decreases n
  {
    if j < n {
      EmittedPointsStay(coords, j, n - 1, k, interval, dist);
      var b := RoutePoints(coords, n - 1, interval, dist);
      assert RoutePoints(coords, n, interval, dist) == b + LegPoints(coords[n - 2], coords[n - 1], interval, dist);
    }
  }

  /** The offset of stop `i` in the output of `get_route_points`. */
  function StopOffset(coords: seq<Stop>, i: nat, interval: real, dist: Distance): (o: nat)
    requires i < |coords| && (i >= 1 ==> interval != 0.0)
  {
    |RoutePoints(coords, i + 1, interval, dist)| - 1
  }

  /** The points emitted up to and including leg `i`, which ends at stop `i + 1`. */
  function ThroughLeg(coords: seq<Stop>, i: nat, interval: real, dist: Distance): seq<RoutePoint>
    requires i + 1 < |coords| && interval != 0.0
  {
    RoutePoints(coords, i + 2, interval, dist)
  }

  /** The points through leg `i`: those through stop `i`, then the leg's checkpoints and stop `i + 1`. */
  lemma ThroughLegSplit(coords: seq<Stop>, i: nat, interval: real, dist: Distance)
    requires i + 1 < |coords| && interval != 0.0
    ensures ThroughLeg(coords, i, interval, dist)
            == RoutePoints(coords, i + 1, interval, dist)
               + Checkpoints(coords[i].pos, coords[i + 1].pos, LegDivisions(coords[i], coords[i + 1], interval, dist),
                             LegDivisions(coords[i], coords[i + 1], interval, dist) - 1)
               + [SampleStop(coords[i + 1])]
  {
  }

  /** Leg `i` as it is emitted: stop `i` at its offset, and stop `i + 1` the leg's division count later. */
  lemma LegStopsAsEmitted(coords: seq<Stop>, i: nat, interval: real, dist: Distance)
    requires i + 1 < |coords| && interval != 0.0
    ensures StopOffset(coords, i, interval, dist) + LegDivisions(coords[i], coords[i + 1], interval, dist)
            == StopOffset(coords, i + 1, interval, dist)
    ensures ThroughLeg(coords, i, interval, dist)[StopOffset(coords, i, interval, dist)] == SampleStop(coords[i])
    ensures ThroughLeg(coords, i, interval, dist)[StopOffset(coords, i + 1, interval, dist)] == SampleStop(coords[i + 1])
  {
    ThroughLegSplit(coords, i, interval, dist);
    RoutePointsEnds(coords, i + 1, interval, dist);
    var p := RoutePoints(coords, i + 1, interval, dist);
    var q := ThroughLeg(coords, i, interval, dist);
    assert q[|p| - 1] == p[|p| - 1];
  }

  /** An index into the middle part of a three-part concatenation. */
  lemma MiddleIndex<T>(p: seq<T>, cs: seq<T>, s: seq<T>, k: int)
    requires |p| <= k < |p| + |cs|
    ensures (p + cs + s)[k] == cs[k - |p|]
  {
  }

  /** A leg's checkpoints placed after `p` and before `s`, read at position `k`. */
  lemma CheckpointsEmbedded(p: seq<RoutePoint>, a: LatLon, b: LatLon, m: int, s: seq<RoutePoint>, k: int)
    requires m >= 1 && |p| <= k < |p| + m - 1
    ensures (p + Checkpoints(a, b, m, m - 1) + s)[k] == SampleCheckpoint(Lerp(a, b, (k - |p| + 1) as real / m as real))
  {
    MiddleIndex(p, Checkpoints(a, b, m, m - 1), s, k);
    CheckpointAt(a, b, m, m - 1, k - |p|);
  }

  /** Leg `i` as it is emitted: between its two stops, the checkpoint `k - o` of the leg's `m` divisions. */
  lemma LegCheckpointAsEmitted(coords: seq<Stop>, i: nat, k: nat, interval: real, dist: Distance)
    requires i + 1 < |coords| && interval != 0.0
    requires StopOffset(coords, i, interval, dist) < k < StopOffset(coords, i + 1, interval, dist)
    ensures ThroughLeg(coords, i, interval, dist)[k]
            == SampleCheckpoint(Lerp(coords[i].pos, coords[i + 1].pos,
                 (k - StopOffset(coords, i, interval, dist)) as real / LegDivisions(coords[i], coords[i + 1], interval, dist) as real))
  {
    ThroughLegSplit(coords, i, interval, dist);
    var p := RoutePoints(coords, i + 1, interval, dist);
    var m := LegDivisions(coords[i], coords[i + 1], interval, dist);
    assert StopOffset(coords, i + 1, interval, dist) == |p| - 1 + m;
    CheckpointsEmbedded(p, coords[i].pos, coords[i + 1].pos, m, [SampleStop(coords[i + 1])], k);
  }

  /**
   * The stops of leg `i` in the output of `get_route_points`: stop `i` sits at offset `o` and
   * stop `i + 1` at offset `o + m`, where `m` is the leg's division count.
   */
  lemma LegLayout(coords: seq<Stop>, i: nat, interval: real, dist: Distance)
    requires i + 1 < |coords| && interval != 0.0
    ensures StopOffset(coords, i, interval, dist) + LegDivisions(coords[i], coords[i + 1], interval, dist)
            == StopOffset(coords, i + 1, interval, dist)
    ensures StopOffset(coords, i + 1, interval, dist) < |RoutePoints(coords, |coords|, interval, dist)|
    ensures RoutePoints(coords, |coords|, interval, dist)[StopOffset(coords, i, interval, dist)] == SampleStop(coords[i])
    ensures RoutePoints(coords, |coords|, interval, dist)[StopOffset(coords, i + 1, interval, dist)] == SampleStop(coords[i + 1])
  {
    LegStopsAsEmitted(coords, i, interval, dist);
    EmittedPointsStay(coords, i + 2, |coords|, StopOffset(coords, i, interval, dist), interval, dist);
    EmittedPointsStay(coords, i + 2, |coords|, StopOffset(coords, i + 1, interval, dist), interval, dist);
  }

  /**
   * Between the stops of leg `i` in the output of `get_route_points`, the point at offset
   * `o + j` is the checkpoint at fraction `j / m` of that leg.
   */
  lemma LegCheckpointInOutput(coords: seq<Stop>, i: nat, k: nat, interval: real, dist: Distance)
    requires i + 1 < |coords| && interval != 0.0
    requires StopOffset(coords, i, interval, dist) < k < StopOffset(coords, i + 1, interval, dist)
    ensures k < |RoutePoints(coords, |coords|, interval, dist)|
    ensures RoutePoints(coords, |coords|, interval, dist)[k]
            == SampleCheckpoint(Lerp(coords[i].pos, coords[i + 1].pos,
                 (k - StopOffset(coords, i, interval, dist)) as real / LegDivisions(coords[i], coords[i + 1], interval, dist) as real))
  {
    EmittedPointsStay(coords, i + 2, |coords|, k, interval, dist);
    LegCheckpointAsEmitted(coords, i, k, interval, dist);
  }

  /**
   * As written, for a positive interval, a leg never gets more than `max(2, ceil(interval))`
   * parts, however long it is: the outer count is at least `d / interval`, so the second division
   * yields at most `interval`.
   */
  lemma LegDivisionsBounded(a: Stop, b: Stop, interval: real, dist: Distance)
    requires interval > 0.0
    ensures LegDivisions(a, b, interval, dist) <= if Ceil(interval) > 2 then Ceil(interval) else 2
  {
    var d := dist(a.pos, b.pos);
    var n := NumDivisions(d, interval);
    NumDivisionsIsLeast(d, interval);
    PartsWithin(d, interval, n as real);
    CeilMonotone(d / n as real, interval);
  }

  /** At least `d / c` parts of `d` are each at most `c` long. */
  lemma PartsWithin(d: real, c: real, parts: real)
    requires c > 0.0 && parts > 0.0 && d / c <= parts
    ensures d / parts <= c
  {
    var q := d / c;
    assert q * c == d;
    MulMonotone(q, parts, c);
    var r := d / parts;
    assert r * parts == d;
    if r > c {
      MulStrict(c, r, parts);
    }
  }

  lemma MulStrict(x: real, y: real, c: real)
    requires x < y && c > 0.0
    ensures x * c < y * c
  {
  }

  lemma MulMonotone(x: real, y: real, c: real)
    requires x <= y && c > 0.0
    ensures x * c <= y * c
  {
  }

  lemma CeilMonotone(x: real, y: real)
    requires x <= y
    ensures Ceil(x) <= Ceil(y)
  {
  }

  /**
   * A 1000-mile leg with a 10-mile interval: the outer count is 100, and dividing the leg's
   * distance by that count once more cuts the leg into 10 parts of 100 miles (9 checkpoints).
   */
  lemma LegOf1000Miles(a: Stop, b: Stop, dist: Distance)
    requires dist(a.pos, b.pos) == 1000.0
    ensures NumDivisions(dist(a.pos, b.pos), 10.0) == 100
    ensures LegDivisions(a, b, 10.0, dist) == 10
    ensures dist(a.pos, b.pos) / LegDivisions(a, b, 10.0, dist) as real == 100.0
  {
    assert Ceil(100.0) == 100;
    assert NumDivisions(1000.0, 10.0) == 100;
    assert Ceil(10.0) == 10;
    assert NumDivisions(1000.0, 100.0) == 10;
  }
}
