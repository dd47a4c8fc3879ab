/** The route path of the request handler: the origin, the far-enough step ends, and the destination. */
module RoutePath {
  import opened Types

  /** A step of a directions leg: where it ends and its instruction text. */
  datatype Step = Step(endLocation: LatLon, instructions: string)

  /** A point of `route_path`: a stop carries its address, a step end its instruction text. */
  datatype PathPoint = PathPoint(pos: LatLon, address: string, isStop: bool)

  function PathStop(c: Stop): PathPoint
  {
    PathPoint(c.pos, c.address, true)
  }

  function StepPoint(s: Step): PathPoint
  {
    PathPoint(s.endLocation, s.instructions, false)
  }

  /** The steps of the first `n` legs, leg by leg. */
  function Flatten(legs: seq<seq<Step>>, n: nat): seq<Step>
    requires n <= |legs|
  {
    if n == 0 then [] else Flatten(legs, n - 1) + legs[n - 1]
  }

  /** One step of the thinning: the step end is appended when it is at least `interval` miles from the last kept point. */
  function ThinStep(kept: seq<PathPoint>, step: Step, interval: real, dist: Distance): seq<PathPoint>
    requires |kept| >= 1
  {
    if dist(kept[|kept| - 1].pos, step.endLocation) >= interval then kept + [StepPoint(step)] else kept
  }

  /**
   * The thinned path after visiting `steps`: starting from `origin`, a step end is kept exactly
   * when it is at least `interval` miles from the last kept point.
   */
  function Thin(origin: PathPoint, steps: seq<Step>, interval: real, dist: Distance): (r: seq<PathPoint>)
    ensures 1 <= |r| <= |steps| + 1
  {
    if steps == [] then [origin]
    else ThinStep(Thin(origin, steps[..|steps| - 1], interval, dist), steps[|steps| - 1], interval, dist)
  }

  /** The thinned path always starts with the origin. */
  lemma {:induction false} ThinStartsAtOrigin(origin: PathPoint, steps: seq<Step>, interval: real, dist: Distance)
    ensures Thin(origin, steps, interval, dist)[0] == origin
  {
    if steps != [] {
      ThinStartsAtOrigin(origin, steps[..|steps| - 1], interval, dist);
    }
  }

  /** Where the thinned path currently ends. */
  function LastKept(origin: PathPoint, visited: seq<Step>, interval: real, dist: Distance): LatLon
  {
    var kept := Thin(origin, visited, interval, dist);
    kept[|kept| - 1].pos
  }

  /** The step ends of `steps`, in order, as path points. */
  function StepPoints(steps: seq<Step>): (r: seq<PathPoint>)
    ensures |r| == |steps|
    ensures forall k :: 0 <= k < |steps| ==> r[k] == StepPoint(steps[k])
  {
    if steps == [] then [] else StepPoints(steps[..|steps| - 1]) + [StepPoint(steps[|steps| - 1])]
  }

  /** `a` is `b` with some elements removed, the rest kept in order. */
  predicate IsSubsequence<T(==)>(a: seq<T>, b: seq<T>)
    decreases |b|
  {
    if a == [] then true
    else if b == [] then false
    else (a[|a| - 1] == b[|b| - 1] && IsSubsequence(a[..|a| - 1], b[..|b| - 1])) || IsSubsequence(a, b[..|b| - 1])
  }

  /** A step far enough from the last kept point is appended to the thinned path. */
  lemma ThinKeeps(origin: PathPoint, visited: seq<Step>, step: Step, interval: real, dist: Distance)
    requires dist(LastKept(origin, visited, interval, dist), step.endLocation) >= interval
    ensures Thin(origin, visited + [step], interval, dist) == Thin(origin, visited, interval, dist) + [StepPoint(step)]
  {
    var s := visited + [step];
    assert s[..|s| - 1] == visited;
  }

  /** A step closer than `interval` to the last kept point is dropped. */
  lemma ThinSkips(origin: PathPoint, visited: seq<Step>, step: Step, interval: real, dist: Distance)
    requires dist(LastKept(origin, visited, interval, dist), step.endLocation) < interval
    ensures Thin(origin, visited + [step], interval, dist) == Thin(origin, visited, interval, dist)
  {
    var s := visited + [step];
    assert s[..|s| - 1] == visited;
  }

  /** Appends the destination stop unless the path already ends at its coordinates. */
  function Close(path: seq<PathPoint>, dest: Stop): (r: seq<PathPoint>)
    requires |path| >= 1
    ensures |r| >= 1 && r[|r| - 1].pos == dest.pos
    ensures path <= r
    ensures |r| == if path[|path| - 1].pos != dest.pos then |path| + 1 else |path|
    ensures |r| > |path| ==> r[|r| - 1] == PathStop(dest)
  {
    if path[|path| - 1].pos != dest.pos then path + [PathStop(dest)] else path
  }

  /** `route_path` after the loop over the legs, before the closing check. */
  function ThinnedPath(origin: Stop, legs: seq<seq<Step>>, interval: real, dist: Distance): seq<PathPoint>
  {
    Thin(PathStop(origin), Flatten(legs, |legs|), interval, dist)
  }

  /** The `route_path` the handler builds from the first route's legs. */
  function RoutePathOf(origin: Stop, dest: Stop, legs: seq<seq<Step>>, interval: real, dist: Distance): seq<PathPoint>
  {
    Close(ThinnedPath(origin, legs, interval, dist), dest)
  }

  /** Visiting step `j` of a leg is one thinning step from the path kept before it. */
  lemma ThinNext(origin: PathPoint, visited: seq<Step>, leg: seq<Step>, j: nat, interval: real, dist: Distance)
    requires j < |leg|
    ensures Thin(origin, visited + leg[..j + 1], interval, dist)
            == ThinStep(Thin(origin, visited + leg[..j], interval, dist), leg[j], interval, dist)
  {
    var s := visited + leg[..j + 1];
    assert leg[..j + 1] == leg[..j] + [leg[j]];
    assert s[..|s| - 1] == visited + leg[..j];
  }

  lemma EmptyLeg<T>(visited: seq<T>, leg: seq<T>)
    ensures visited + leg[..0] == visited
  {
  }

  lemma WholeLeg<T>(visited: seq<T>, leg: seq<T>)
    ensures visited + leg[..|leg|] == visited + leg
  {
  }

  /** The path kept after thinning the first `n` steps of `leg`, continuing from the path `kept`. */
  function ThinFrom(kept: seq<PathPoint>, leg: seq<Step>, n: nat, interval: real, dist: Distance): (r: seq<PathPoint>)
    requires |kept| >= 1 && n <= |leg|
    ensures |r| >= 1
  {
    if n == 0 then kept else ThinStep(ThinFrom(kept, leg, n - 1, interval, dist), leg[n - 1], interval, dist)
  }

  /** Continuing the thinning over a leg is thinning the visited steps followed by that leg. */
  lemma {:induction false} ThinFromExtends(origin: PathPoint, visited: seq<Step>, leg: seq<Step>, n: nat,
                                           interval: real, dist: Distance)
    requires n <= |leg|
    ensures ThinFrom(Thin(origin, visited, interval, dist), leg, n, interval, dist)
            == Thin(origin, visited + leg[..n], interval, dist)
  {
    if n == 0 {
      EmptyLeg(visited, leg);
    } else {
      ThinFromExtends(origin, visited, leg, n - 1, interval, dist);
      ThinNext(origin, visited, leg, n - 1, interval, dist);
    }
  }

  /**
   * The inner loop over one leg's steps: each step end at least `interval` miles from the last
   * kept point is appended and becomes the last kept point.
   */
  method KeepFarSteps(routePath: seq<PathPoint>, lastPoint: PathPoint, leg: seq<Step>, interval: real, dist: Distance)
    returns (routePath': seq<PathPoint>, lastPoint': PathPoint)
    requires |routePath| >= 1 && lastPoint == routePath[|routePath| - 1]
    ensures routePath' == ThinFrom(routePath, leg, |leg|, interval, dist)
    ensures lastPoint' == routePath'[|routePath'| - 1]
  {
    routePath', lastPoint' := routePath, lastPoint;
    var j := 0;
    while j < |leg|
      invariant 0 <= j <= |leg|
      invariant routePath' == ThinFrom(routePath, leg, j, interval, dist)
      invariant lastPoint' == routePath'[|routePath'| - 1]
    {
      var step := leg[j];
      var currentPoint := StepPoint(step);
      var distance := dist(lastPoint'.pos, currentPoint.pos);
      if distance >= interval {
        routePath' := routePath' + [currentPoint];
        lastPoint' := currentPoint;
      }
      j := j + 1;
    }
  }

  /**
   * Builds `route_path`: the origin stop, then each step end of each leg that is at least
   * `interval` miles from the last kept point, then the destination stop if the path does
   * not already end at its coordinates.
   */
  method BuildRoutePath(origin: Stop, dest: Stop, legs: seq<seq<Step>>, interval: real, dist: Distance)
    returns (routePath: seq<PathPoint>)
    ensures routePath == RoutePathOf(origin, dest, legs, interval, dist)
    ensures routePath[0] == PathStop(origin) && routePath[|routePath| - 1].pos == dest.pos
    ensures forall k :: 1 <= k < |routePath| - 1 ==> !routePath[k].isStop
  {
    routePath := [PathStop(origin)];
    var lastPoint := routePath[0];
    var i := 0;
    while i < |legs|
      invariant 0 <= i <= |legs|
      invariant routePath == Thin(PathStop(origin), Flatten(legs, i), interval, dist)
      invariant lastPoint == routePath[|routePath| - 1]
    {
      routePath, lastPoint := KeepFarSteps(routePath, lastPoint, legs[i], interval, dist);
      ThinFromExtends(PathStop(origin), Flatten(legs, i), legs[i], |legs[i]|, interval, dist);
      WholeLeg(Flatten(legs, i), legs[i]);
      i := i + 1;
    }
    if routePath[|routePath| - 1].pos != dest.pos {
      routePath := routePath + [PathStop(dest)];
    }
    RoutePathShape(origin, dest, legs, interval, dist);
  }

  /** Every kept point after the origin is at least `interval` miles from the point kept before it. */
  lemma {:induction false} ThinSpacing(origin: PathPoint, steps: seq<Step>, interval: real, dist: Distance)
    ensures forall k :: 1 <= k < |Thin(origin, steps, interval, dist)| ==>
              dist(Thin(origin, steps, interval, dist)[k - 1].pos, Thin(origin, steps, interval, dist)[k].pos) >= interval
  {
    if steps != [] {
      ThinSpacing(origin, steps[..|steps| - 1], interval, dist);
    }
  }

  /** The kept points after the origin are step ends, never stops. */
  lemma {:induction false} ThinKeepsNoStops(origin: PathPoint, steps: seq<Step>, interval: real, dist: Distance)
    ensures forall k :: 1 <= k < |Thin(origin, steps, interval, dist)| ==> !Thin(origin, steps, interval, dist)[k].isStop
  {
    if steps != [] {
      ThinKeepsNoStops(origin, steps[..|steps| - 1], interval, dist);
    }
  }

  /** Appending the same element to both sides keeps a subsequence. */
  lemma SubsequenceBothGrow<T>(a: seq<T>, b: seq<T>, x: T)
    requires IsSubsequence(a, b)
    ensures IsSubsequence(a + [x], b + [x])
  {
    assert (a + [x])[..|a|] == a;
    assert (b + [x])[..|b|] == b;
  }

  /** Appending an element to the longer side keeps a subsequence. */
  lemma SubsequenceGrow<T>(a: seq<T>, b: seq<T>, x: T)
    requires IsSubsequence(a, b)
    ensures IsSubsequence(a, b + [x])
  {
    assert (b + [x])[..|b|] == b;
  }

  /** The step ends of `steps + [step]` are those of `steps`, then the new one. */
  lemma StepPointsSnoc(steps: seq<Step>, step: Step)
    ensures StepPoints(steps + [step]) == StepPoints(steps) + [StepPoint(step)]
  {
    var s := steps + [step];
    assert s[..|s| - 1] == steps;
  }

  /** One more step keeps the thinned path a subsequence of the step ends. */
  lemma ThinSubsequenceStep(origin: PathPoint, visited: seq<Step>, step: Step, interval: real, dist: Distance)
    requires IsSubsequence(Thin(origin, visited, interval, dist)[1..], StepPoints(visited))
    ensures IsSubsequence(Thin(origin, visited + [step], interval, dist)[1..], StepPoints(visited + [step]))
  {
    var kept := Thin(origin, visited, interval, dist);
    StepPointsSnoc(visited, step);
    if dist(LastKept(origin, visited, interval, dist), step.endLocation) >= interval {
      ThinKeeps(origin, visited, step, interval, dist);
      assert (kept + [StepPoint(step)])[1..] == kept[1..] + [StepPoint(step)];
      SubsequenceBothGrow(kept[1..], StepPoints(visited), StepPoint(step));
    } else {
      ThinSkips(origin, visited, step, interval, dist);
      SubsequenceGrow(kept[1..], StepPoints(visited), StepPoint(step));
    }
  }

  /** The kept points after the origin are the step ends with some dropped, in their original order. */
  lemma {:induction false} ThinIsSubsequence(origin: PathPoint, steps: seq<Step>, interval: real, dist: Distance)
    ensures IsSubsequence(Thin(origin, steps, interval, dist)[1..], StepPoints(steps))
  {
    if steps != [] {
      var prev := steps[..|steps| - 1];
      ThinIsSubsequence(origin, prev, interval, dist);
      ThinSubsequenceStep(origin, prev, steps[|steps| - 1], interval, dist);
      assert prev + [steps[|steps| - 1]] == steps;
    }
  }

  /**
   * The built path starts at the origin stop, has only step ends in its interior, and ends at the
   * destination's coordinates; it ends on the destination stop exactly when the thinned path did
   * not already end there, so a kept step that coincides with the destination ends the path.
   */
  lemma RoutePathShape(origin: Stop, dest: Stop, legs: seq<seq<Step>>, interval: real, dist: Distance)
    ensures RoutePathOf(origin, dest, legs, interval, dist)[0] == PathStop(origin)
    ensures forall k :: 1 <= k < |RoutePathOf(origin, dest, legs, interval, dist)| - 1 ==>
              !RoutePathOf(origin, dest, legs, interval, dist)[k].isStop
    ensures RoutePathOf(origin, dest, legs, interval, dist)[|RoutePathOf(origin, dest, legs, interval, dist)| - 1].pos == dest.pos
    ensures LastKept(PathStop(origin), Flatten(legs, |legs|), interval, dist) != dest.pos ==>
              RoutePathOf(origin, dest, legs, interval, dist) == ThinnedPath(origin, legs, interval, dist) + [PathStop(dest)]
    ensures LastKept(PathStop(origin), Flatten(legs, |legs|), interval, dist) == dest.pos ==>
              RoutePathOf(origin, dest, legs, interval, dist) == ThinnedPath(origin, legs, interval, dist)
  {
    ThinStartsAtOrigin(PathStop(origin), Flatten(legs, |legs|), interval, dist);
    ThinKeepsNoStops(PathStop(origin), Flatten(legs, |legs|), interval, dist);
    var t := ThinnedPath(origin, legs, interval, dist);
    var r := RoutePathOf(origin, dest, legs, interval, dist);
    if |r| > |t| {
      assert r == t + [PathStop(dest)];
    }
  }
}
