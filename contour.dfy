/** The contour refiner of ImageProcessor::handRecognition: every point of a skin
    contour is snapped to a nearby Canny edge pixel, starting from the point that lies on
    (or nearest to) an edge and walking outwards in both directions; and the bounding-box
    size filter that decides which contours are handed on for comparison.

    Contour points are cv::Point values produced by findContours on an image of the same
    size as the edge map, so every contour point lies inside the map. */
module ContourRefiner {
  import opened Geometry
  import opened RingSearch

  /** MIN_WH: the smallest bounding-box side, exclusive, of a hand candidate. */
  const MinWh: int := 50

  /** The default upper bound on a hand's side as a multiple of the face's (TOP_HAND_THRES). */
  const TopHandThres: int := 2

  /** The default merge radius (CANNY_CONTOUR_MERGE_EPS). */
  const CannyContourMergeEps: int := 5

  predicate AllInMap(edges: array2<Byte>, contour: seq<Point>)
  {
    forall i :: 0 <= i < |contour| ==> InMap(edges, contour[i])
  }

  // ---------------------------------------------------------------------------
  // mergeLogic

  /** What mergeLogic does to the merged contour and the running anchor at index point. */
  function MergeStep(edges: array2<Byte>, eps: int, contour: seq<Point>, merged: seq<Point>, point: nat, prev: Point)
    : (r: (seq<Point>, Point))
    reads edges
    requires point < |contour| == |merged|
    ensures |r.0| == |merged|
  {
    var p := contour[point];
    if IsEdge(edges, p) then (merged, p)
    else
      var n := NearestCanny(edges, p, eps, prev);
      if n == NoPoint then (merged, p) else (merged[point := n], n)
  }

  /** Snaps contour[point]: a point on an edge stays and becomes the anchor; otherwise the
      anchored ring search runs, and its result, if any, replaces the point and becomes the
      anchor; if it finds nothing the point stays and becomes the anchor. */
  method MergeLogic(edges: array2<Byte>, eps: int, contourPoly: seq<Point>, mergedContour: seq<Point>,
                    point: nat, prevAssignedP: Point)
    returns (merged: seq<Point>, prev: Point)
    requires point < |contourPoly| == |mergedContour|
    requires InMap(edges, contourPoly[point])
    ensures (merged, prev) == MergeStep(edges, eps, contourPoly, mergedContour, point, prevAssignedP)
    ensures |merged| == |mergedContour|
    ensures forall i :: 0 <= i < |merged| && i != point ==> merged[i] == mergedContour[i]
    ensures IsEdge(edges, contourPoly[point]) ==> merged == mergedContour && prev == contourPoly[point]
    ensures merged[point] == mergedContour[point] || merged[point] == prev
  {
    var p := contourPoly[point];
    if edges[p.y, p.x] > 0 {
      return mergedContour, p;
    }
    var nearestCannyPoint := GetNearestCannyPoint(edges, eps, p, prevAssignedP);
    if nearestCannyPoint == NoPoint {
      merged, prev := mergedContour, p;
    } else {
      merged, prev := mergedContour[point := nearestCannyPoint], nearestCannyPoint;
    }
  }

  /** A merged contour is local to its contour: same length, and each point either kept or
      replaced by an edge pixel on a ring of radius 1..eps around it. */
  predicate Local(edges: array2<Byte>, eps: int, contour: seq<Point>, merged: seq<Point>)
    reads edges
  {
    |merged| == |contour| &&
    forall i :: 0 <= i < |contour| ==>
      merged[i] == contour[i] || (IsEdge(edges, merged[i]) && 1 <= Chebyshev(merged[i], contour[i]) <= eps)
  }

  /** Contour points that lie on an edge are kept. */
  predicate KeepsEdgePoints(edges: array2<Byte>, contour: seq<Point>, merged: seq<Point>)
    reads edges
    requires |merged| == |contour|
  {
    forall i :: 0 <= i < |contour| && IsEdge(edges, contour[i]) ==> merged[i] == contour[i]
  }

  /** One merge step keeps the merged contour local and keeps points on an edge. */
  lemma MergeStepLocal(edges: array2<Byte>, eps: int, contour: seq<Point>, merged: seq<Point>, point: nat, prev: Point)
    requires point < |contour| == |merged|
    requires Local(edges, eps, contour, merged) && KeepsEdgePoints(edges, contour, merged)
    ensures var m := MergeStep(edges, eps, contour, merged, point, prev).0;
      Local(edges, eps, contour, m) && KeepsEdgePoints(edges, contour, m)
  {
    NearestIsNearbyEdge(edges, contour[point], eps, prev);
  }

  // ---------------------------------------------------------------------------
  // The start point

  /** The unanchored ring-search results for the first n contour points, one per point. */
  function Nears(edges: array2<Byte>, eps: int, contour: seq<Point>, n: nat): (r: seq<Point>)
    reads edges
    requires n <= |contour|
    ensures |r| == n
  {
    if n == 0 then [] else Nears(edges, eps, contour, n - 1) + [NearestCanny(edges, contour[n - 1], eps, NoPoint)]
  }

  lemma {:induction false} NearsAt(edges: array2<Byte>, eps: int, contour: seq<Point>, n: nat, i: nat)
    requires i < n <= |contour|
    ensures Nears(edges, eps, contour, n)[i] == NearestCanny(edges, contour[i], eps, NoPoint)
  {
    var prefix := Nears(edges, eps, contour, n - 1);
    var last := NearestCanny(edges, contour[n - 1], eps, NoPoint);
    assert Nears(edges, eps, contour, n) == prefix + [last];
    if i < n - 1 {
      NearsAt(edges, eps, contour, n - 1, i);
      assert (prefix + [last])[i] == prefix[i];
    }
  }

  /** How far contour point i is from its edge pixel near[i], in city-block steps. */
  function Gap(contour: seq<Point>, near: seq<Point>, i: nat): nat
    requires i < |contour| == |near|
  {
    Manhattan(near[i], contour[i])
  }

  /** One step of the start-point loop at a point off the edges, with near[point] the
      unanchored search result there: a found edge pixel strictly closer than the current
      start's (or the first one found) makes point the start. */
  function StartStep(contour: seq<Point>, near: seq<Point>, point: nat, start: nat, snap: Point): (r: (nat, Point))
    requires start <= point < |contour| == |near|
    requires snap != NoPoint ==> start < point
    ensures r.0 <= point + 1 && (r.1 != NoPoint ==> r.0 < point + 1)
  {
    var n := near[point];
    if n == NoPoint then (start, snap)
    else if snap == NoPoint || Manhattan(n, contour[point]) < Manhattan(snap, contour[start]) then (point, n)
    else (start, snap)
  }

  /** The start-point loop from index point on, with the current (startPoint, assignedPoint):
      a point on an edge wins outright; otherwise StartStep decides. */
  function StartScan(edges: array2<Byte>, contour: seq<Point>, near: seq<Point>, point: nat, start: nat, snap: Point)
    : (r: (nat, Point))
    reads edges
    requires start <= point <= |contour| == |near|
    requires snap != NoPoint ==> start < point
    ensures r.1 != NoPoint ==> r.0 < |contour|
    decreases |contour| - point
  {
    if point == |contour| then (start, snap)
    else if IsEdge(edges, contour[point]) then (point, contour[point])
    else
      var (s', a') := StartStep(contour, near, point, start, snap);
      StartScan(edges, contour, near, point + 1, s', a')
  }

  /** The start index and the edge pixel assigned to it ((-1, -1) when none was found). */
  function StartPoint(edges: array2<Byte>, eps: int, contour: seq<Point>): (r: (nat, Point))
    reads edges
    ensures r.1 != NoPoint ==> r.0 < |contour|
  {
    StartScan(edges, contour, Nears(edges, eps, contour, |contour|), 0, 0, NoPoint)
  }

  // ---------------------------------------------------------------------------
  // The two walks and the refined contour

  /** The forward walk: mergeLogic on indices point..|contour|-1 in increasing order. */
  function WalkForward(edges: array2<Byte>, eps: int, contour: seq<Point>, merged: seq<Point>, point: nat, prev: Point)
    : (r: seq<Point>)
    reads edges
    requires |merged| == |contour|
    ensures |r| == |merged|
    decreases |contour| - point
  {
    if point >= |contour| then merged
    else
      var (m, p) := MergeStep(edges, eps, contour, merged, point, prev);
      WalkForward(edges, eps, contour, m, point + 1, p)
  }

  /** The backward walk: mergeLogic on indices point..0 in decreasing order. */
  function WalkBackward(edges: array2<Byte>, eps: int, contour: seq<Point>, merged: seq<Point>, point: int, prev: Point)
    : (r: seq<Point>)
    reads edges
    requires |merged| == |contour| && point < |contour|
    ensures |r| == |merged|
    decreases point + 1
  {
    if point < 0 then merged
    else
      var (m, p) := MergeStep(edges, eps, contour, merged, point, prev);
      WalkBackward(edges, eps, contour, m, point - 1, p)
  }

  /** The merged contour handRecognition builds for one contour. */
  function Refined(edges: array2<Byte>, eps: int, contour: seq<Point>): (r: seq<Point>)
    reads edges
    ensures |r| == |contour|
    ensures StartPoint(edges, eps, contour).1 == NoPoint ==> r == contour
  {
    var (start, snap) := StartPoint(edges, eps, contour);
    if snap == NoPoint then contour
    else
      var forward := WalkForward(edges, eps, contour, contour, start + 1, snap);
      WalkBackward(edges, eps, contour, forward, start - 1, snap)
  }

  /** The refinement of one contour as handRecognition runs it: find the start point, then
      walk forward from it and backward from it, each walk anchored at the start's edge pixel. */
  method RefineContour(edges: array2<Byte>, eps: int, contour: seq<Point>) returns (mergedContour: seq<Point>)
    requires AllInMap(edges, contour)
    ensures mergedContour == Refined(edges, eps, contour)
  {
    mergedContour := contour;
    var startPoint, assignedPoint := FindStartPoint(edges, eps, contour);
    // Bypass contour
    if assignedPoint != NoPoint {
      mergedContour := BypassForward(edges, eps, contour, startPoint, assignedPoint);
      mergedContour := BypassBackward(edges, eps, contour, mergedContour, startPoint, assignedPoint);
    }
  }

  /** The start-point loop: the first point on an edge, or else the earliest point whose
      unanchored nearest edge pixel is closest. */
  method FindStartPoint(edges: array2<Byte>, eps: int, contour: seq<Point>) returns (startPoint: nat, assignedPoint: Point)
    requires AllInMap(edges, contour)
    ensures (startPoint, assignedPoint) == StartPoint(edges, eps, contour)
  {
    startPoint, assignedPoint := 0, NoPoint;
    ghost var near := Nears(edges, eps, contour, |contour|);
    for point := 0 to |contour|
      invariant startPoint <= point
      invariant assignedPoint != NoPoint ==> startPoint < point
      invariant StartScan(edges, contour, near, point, startPoint, assignedPoint) == StartPoint(edges, eps, contour)
    {
      var p := contour[point];
      if edges[p.y, p.x] > 0 {
        startPoint, assignedPoint := point, p;
        break;
      }
      var nearestCannyPoint := GetNearestCannyPoint(edges, eps, p);
      NearsAt(edges, eps, contour, |contour|, point);
      if nearestCannyPoint == NoPoint {
        continue;
      }
      if assignedPoint == NoPoint {
        startPoint, assignedPoint := point, nearestCannyPoint;
      } else if Manhattan(nearestCannyPoint, p) < Manhattan(assignedPoint, contour[startPoint]) {
        startPoint, assignedPoint := point, nearestCannyPoint;
      }
    }
  }

  /** The forward walk from startPoint + 1, anchored at the start's edge pixel. */
  method BypassForward(edges: array2<Byte>, eps: int, contour: seq<Point>, startPoint: nat, assignedPoint: Point)
    returns (mergedContour: seq<Point>)
    requires AllInMap(edges, contour) && startPoint < |contour|
    ensures mergedContour == WalkForward(edges, eps, contour, contour, startPoint + 1, assignedPoint)
  {
    mergedContour := contour;
    var prevAssignedP := assignedPoint;
    var point := startPoint + 1;
    while point < |contour|
      invariant startPoint + 1 <= point <= |contour|
      invariant |mergedContour| == |contour|
      invariant WalkForward(edges, eps, contour, mergedContour, point, prevAssignedP)
             == WalkForward(edges, eps, contour, contour, startPoint + 1, assignedPoint)
    {
      WalkForwardStep(edges, eps, contour, mergedContour, point, prevAssignedP);
      mergedContour, prevAssignedP := MergeLogic(edges, eps, contour, mergedContour, point, prevAssignedP);
      point := point + 1;
    }
  }

  /** One step of the forward walk. */
  lemma WalkForwardStep(edges: array2<Byte>, eps: int, contour: seq<Point>, merged: seq<Point>, point: nat, prev: Point)
    requires point < |contour| == |merged|
    ensures var step := MergeStep(edges, eps, contour, merged, point, prev);
      WalkForward(edges, eps, contour, merged, point, prev) == WalkForward(edges, eps, contour, step.0, point + 1, step.1)
  {
  }

  /** The backward walk from startPoint - 1 down to 0, anchored again at the start's
      edge pixel. */
  method BypassBackward(edges: array2<Byte>, eps: int, contour: seq<Point>, forward: seq<Point>,
                        startPoint: nat, assignedPoint: Point)
    returns (mergedContour: seq<Point>)
    requires AllInMap(edges, contour) && |forward| == |contour| && startPoint < |contour|
    ensures mergedContour == WalkBackward(edges, eps, contour, forward, startPoint - 1, assignedPoint)
  {
    mergedContour := forward;
    var prevAssignedP := assignedPoint;
    var point := startPoint - 1;
    while point >= 0
      invariant -1 <= point < |contour|
      invariant |mergedContour| == |contour|
      invariant WalkBackward(edges, eps, contour, mergedContour, point, prevAssignedP)
             == WalkBackward(edges, eps, contour, forward, startPoint - 1, assignedPoint)
    {
      ghost var step := MergeStep(edges, eps, contour, mergedContour, point, prevAssignedP);
      assert WalkBackward(edges, eps, contour, mergedContour, point, prevAssignedP)
          == WalkBackward(edges, eps, contour, step.0, point - 1, step.1);
      mergedContour, prevAssignedP := MergeLogic(edges, eps, contour, mergedContour, point, prevAssignedP);
      point := point - 1;
    }
  }

  // ---------------------------------------------------------------------------
  // What the refinement guarantees

  lemma {:induction false} WalkForwardLocal(edges: array2<Byte>, eps: int, contour: seq<Point>, merged: seq<Point>, point: nat, prev: Point)
    requires |merged| == |contour|
    requires Local(edges, eps, contour, merged) && KeepsEdgePoints(edges, contour, merged)
    ensures var m := WalkForward(edges, eps, contour, merged, point, prev);
      Local(edges, eps, contour, m) && KeepsEdgePoints(edges, contour, m)
    ensures forall i :: 0 <= i < point && i < |contour| ==> WalkForward(edges, eps, contour, merged, point, prev)[i] == merged[i]
    decreases |contour| - point
  {
    if point < |contour| {
      var (m, p) := MergeStep(edges, eps, contour, merged, point, prev);
      WalkForwardStep(edges, eps, contour, merged, point, prev);
      MergeStepLocal(edges, eps, contour, merged, point, prev);
      WalkForwardLocal(edges, eps, contour, m, point + 1, p);
    }
  }

  lemma {:induction false} WalkBackwardLocal(edges: array2<Byte>, eps: int, contour: seq<Point>, merged: seq<Point>, point: int, prev: Point)
    requires |merged| == |contour| && point < |contour|
    requires Local(edges, eps, contour, merged) && KeepsEdgePoints(edges, contour, merged)
    ensures var m := WalkBackward(edges, eps, contour, merged, point, prev);
      Local(edges, eps, contour, m) && KeepsEdgePoints(edges, contour, m)
    ensures forall i :: 0 <= i && point < i < |contour| ==> WalkBackward(edges, eps, contour, merged, point, prev)[i] == merged[i]
    decreases point + 1
  {
    if point >= 0 {
      var (m, p) := MergeStep(edges, eps, contour, merged, point, prev);
      MergeStepLocal(edges, eps, contour, merged, point, prev);
      WalkBackwardLocal(edges, eps, contour, m, point - 1, p);
    }
  }

  /** The merged contour has the contour's length; every point is either kept or moved to an
      edge pixel on a ring of radius 1..eps around it; points on an edge are kept; and the
      start point itself is never rewritten. */
  lemma RefinedIsLocal(edges: array2<Byte>, eps: int, contour: seq<Point>)
    ensures var m := Refined(edges, eps, contour);
      Local(edges, eps, contour, m) && KeepsEdgePoints(edges, contour, m)
    ensures var (start, snap) := StartPoint(edges, eps, contour);
      snap != NoPoint ==> start < |contour| && Refined(edges, eps, contour)[start] == contour[start]
  {
    var (start, snap) := StartPoint(edges, eps, contour);
    if snap != NoPoint {
      var forward := WalkForward(edges, eps, contour, contour, start + 1, snap);
      WalkForwardLocal(edges, eps, contour, contour, start + 1, snap);
      WalkBackwardLocal(edges, eps, contour, forward, start - 1, snap);
    }
  }

  /** A point on an edge ends the start-point search at once. */
  lemma {:induction false} StartScanFirstOnEdge(edges: array2<Byte>, contour: seq<Point>, near: seq<Point>,
                                                point: nat, start: nat, snap: Point, k: nat)
    requires start <= point <= k < |contour| == |near|
    requires snap != NoPoint ==> start < point
    requires IsEdge(edges, contour[k])
    requires forall i :: point <= i < k ==> !IsEdge(edges, contour[i])
    ensures StartScan(edges, contour, near, point, start, snap) == (k, contour[k])
    decreases |contour| - point
  {
    if point < k {
      var n := near[point];
      if n == NoPoint {
        StartScanFirstOnEdge(edges, contour, near, point + 1, start, snap, k);
      } else if snap == NoPoint || Manhattan(n, contour[point]) < Manhattan(snap, contour[start]) {
        StartScanFirstOnEdge(edges, contour, near, point + 1, point, n, k);
      } else {
        StartScanFirstOnEdge(edges, contour, near, point + 1, start, snap, k);
      }
    }
  }

  /** The first contour point lying on an edge is the start point, assigned to itself. */
  lemma FirstOnEdgeStarts(edges: array2<Byte>, eps: int, contour: seq<Point>, k: nat)
    requires k < |contour| && IsEdge(edges, contour[k])
    requires forall i :: 0 <= i < k ==> !IsEdge(edges, contour[i])
    ensures StartPoint(edges, eps, contour) == (k, contour[k])
  {
    StartScanFirstOnEdge(edges, contour, Nears(edges, eps, contour, |contour|), 0, 0, NoPoint, k);
  }

  /** (start, snap) is the earliest strict minimum of the gap over indices 0..point-1,
      or nothing when no index there has an edge pixel. */
  predicate BestStart(contour: seq<Point>, near: seq<Point>, point: nat, start: nat, snap: Point)
    requires point <= |contour| == |near|
  {
    (snap == NoPoint <==> forall i :: 0 <= i < point ==> near[i] == NoPoint) &&
    (snap != NoPoint ==>
      start < point && snap == near[start] &&
      forall i :: 0 <= i < point && near[i] != NoPoint ==>
        Gap(contour, near, start) <= Gap(contour, near, i) &&
        (i < start ==> Gap(contour, near, start) < Gap(contour, near, i)))
  }

  /** One step of the start-point loop at a point off the edges keeps BestStart. */
  lemma BestStartExtend(contour: seq<Point>, near: seq<Point>, point: nat, start: nat, snap: Point)
    requires start <= point < |contour| == |near|
    requires BestStart(contour, near, point, start, snap)
    ensures var (s, a) := StartStep(contour, near, point, start, snap);
      BestStart(contour, near, point + 1, s, a)
  {
    if snap != NoPoint {
      assert Gap(contour, near, start) == Manhattan(snap, contour[start]);
    }
  }

  lemma {:induction false} StartScanBest(edges: array2<Byte>, contour: seq<Point>, near: seq<Point>, point: nat, start: nat, snap: Point)
    requires start <= point <= |contour| == |near|
    requires forall i :: point <= i < |contour| ==> !IsEdge(edges, contour[i])
    requires BestStart(contour, near, point, start, snap)
    ensures var (s, a) := StartScan(edges, contour, near, point, start, snap);
      BestStart(contour, near, |contour|, s, a)
    decreases |contour| - point
  {
    if point < |contour| {
      BestStartExtend(contour, near, point, start, snap);
      var (s', a') := StartStep(contour, near, point, start, snap);
      StartScanBest(edges, contour, near, point + 1, s', a');
    }
  }

  /** Without a contour point on an edge, the start point is the earliest point whose nearest
      edge pixel is strictly closest (city-block), and it is assigned that pixel; nothing is
      assigned exactly when no point finds an edge pixel. */
  lemma EarliestClosestStarts(edges: array2<Byte>, eps: int, contour: seq<Point>)
    requires forall i :: 0 <= i < |contour| ==> !IsEdge(edges, contour[i])
    ensures var near := Nears(edges, eps, contour, |contour|);
      var (start, snap) := StartPoint(edges, eps, contour);
      BestStart(contour, near, |contour|, start, snap)
  {
    StartScanBest(edges, contour, Nears(edges, eps, contour, |contour|), 0, 0, NoPoint);
  }

  /** If no contour point lies on an edge or finds an edge pixel nearby, the contour is left
      as it is. */
  lemma NothingFoundKeepsContour(edges: array2<Byte>, eps: int, contour: seq<Point>)
    requires forall i :: 0 <= i < |contour| ==>
      !IsEdge(edges, contour[i]) && NearestCanny(edges, contour[i], eps, NoPoint) == NoPoint
    ensures Refined(edges, eps, contour) == contour
  {
    var near := Nears(edges, eps, contour, |contour|);
    forall i | 0 <= i < |contour|
      ensures near[i] == NoPoint
    {
      NearsAt(edges, eps, contour, |contour|, i);
    }
    EarliestClosestStarts(edges, eps, contour);
  }

  lemma {:induction false} WalkForwardNoRadius(edges: array2<Byte>, eps: int, contour: seq<Point>, merged: seq<Point>, point: nat, prev: Point)
    requires eps < 1 && |merged| == |contour|
    ensures WalkForward(edges, eps, contour, merged, point, prev) == merged
    decreases |contour| - point
  {
    if point < |contour| {
      NoRadiusFindsNothing(edges, contour[point], eps, prev);
      var (m, p) := MergeStep(edges, eps, contour, merged, point, prev);
      WalkForwardNoRadius(edges, eps, contour, m, point + 1, p);
    }
  }

  lemma {:induction false} WalkBackwardNoRadius(edges: array2<Byte>, eps: int, contour: seq<Point>, merged: seq<Point>, point: int, prev: Point)
    requires eps < 1 && |merged| == |contour| && point < |contour|
    ensures WalkBackward(edges, eps, contour, merged, point, prev) == merged
    decreases point + 1
  {
    if point >= 0 {
      NoRadiusFindsNothing(edges, contour[point], eps, prev);
      var (m, p) := MergeStep(edges, eps, contour, merged, point, prev);
      WalkBackwardNoRadius(edges, eps, contour, m, point - 1, p);
    }
  }

  /** A merge radius below 1 leaves every contour unchanged. */
  lemma NoRadiusKeepsContour(edges: array2<Byte>, eps: int, contour: seq<Point>)
    requires eps < 1
    ensures Refined(edges, eps, contour) == contour
  {
    var (start, snap) := StartPoint(edges, eps, contour);
    if snap != NoPoint {
      WalkForwardNoRadius(edges, eps, contour, contour, start + 1, snap);
      WalkBackwardNoRadius(edges, eps, contour, contour, start - 1, snap);
    }
  }

  // ---------------------------------------------------------------------------
  // The size filter and the contour loop of handRecognition

  /** Whether a contour with bounding box box is handed on for comparison: both sides above
      MIN_WH and, outside photo-processing mode, each side strictly between half the face's
      side and topHandThres times it. The comparisons with faceRect.width * 0.5 are exact,
      so they are stated on doubled integers. */
  predicate Qualifies(box: Rect, face: Rect, photoProcessingMode: bool, topHandThres: int)
    ensures !photoProcessingMode && face.width == 0 ==> !Qualifies(box, face, photoProcessingMode, topHandThres)
  {
    box.width > MinWh && box.height > MinWh &&
    (photoProcessingMode ||
      (2 * box.width > face.width && 2 * box.height > face.height &&
       box.width < face.width * topHandThres && box.height < face.height * topHandThres))
  }

  /** Photo-processing mode passes a box exactly when both sides exceed MIN_WH, and every box
      live mode passes, photo mode passes too. */
  lemma PhotoModeQualifies(box: Rect, face: Rect, topHandThres: int)
    ensures Qualifies(box, face, true, topHandThres) <==> box.width > 50 && box.height > 50
    ensures Qualifies(box, face, false, topHandThres) ==> Qualifies(box, face, true, topHandThres)
  {
  }

  /** In live mode with the default 150x150 face and threshold 2, a box passes exactly when
      each side lies strictly between 75 and 300. */
  lemma DefaultFaceWindow(box: Rect)
    ensures Qualifies(box, Rect(0, 0, 150, 150), false, TopHandThres) <==>
      75 < box.width < 300 && 75 < box.height < 300
  {
  }

  /** In live mode, a face rectangle of zero width (no face found) passes no contour. */
  lemma NoFaceNoHand(box: Rect, face: Rect, topHandThres: int)
    requires face.width == 0
    ensures !Qualifies(box, face, false, topHandThres)
  {
  }

  /** The contours of one frame are handed on for comparison: those whose bounding box
      qualifies are refined (when contours are shown) and passed to the comparison, which
      may fail (commandOk[i] false), in which case handRecognition gives up at once and
      returns false. The applicants are the contours handed on, in order. */
  method HandRecognitionContours(edges: array2<Byte>, eps: int, contours: seq<seq<Point>>, boxes: seq<Rect>,
                                 faceRect: Rect, photoProcessingMode: bool, topHandThres: int,
                                 showContours: bool, commandOk: seq<bool>)
    returns (ok: bool, applicants: seq<seq<Point>>)
    requires |boxes| == |contours| == |commandOk|
    requires forall i :: 0 <= i < |contours| ==> AllInMap(edges, contours[i])
    ensures ok <==> forall i :: 0 <= i < |contours| && Qualifies(boxes[i], faceRect, photoProcessingMode, topHandThres) ==> commandOk[i]
    ensures ok ==> applicants == Applicants(edges, eps, contours, boxes, faceRect, photoProcessingMode, topHandThres, showContours, |contours|)
  {
    applicants := [];
    for i := 0 to |contours|
      invariant forall k :: 0 <= k < i && Qualifies(boxes[k], faceRect, photoProcessingMode, topHandThres) ==> commandOk[k]
      invariant applicants == Applicants(edges, eps, contours, boxes, faceRect, photoProcessingMode, topHandThres, showContours, i)
    {
      if Qualifies(boxes[i], faceRect, photoProcessingMode, topHandThres) {
        var merged := contours[i];
        if showContours {
          merged := RefineContour(edges, eps, contours[i]);
        }
        if !commandOk[i] {
          return false, applicants;
        }
        applicants := applicants + [merged];
      }
    }
    ok := true;
  }

  /** The contours among the first n that are handed on, refined when contours are shown. */
  function Applicants(edges: array2<Byte>, eps: int, contours: seq<seq<Point>>, boxes: seq<Rect>,
                      faceRect: Rect, photoProcessingMode: bool, topHandThres: int, showContours: bool, n: nat)
    : (handed: seq<seq<Point>>)
    reads edges
    requires n <= |contours| == |boxes|
    ensures |handed| <= n
    ensures !showContours ==> forall x :: x in handed ==> x in contours[..n]
  {
    if n == 0 then []
    else
      var before := Applicants(edges, eps, contours, boxes, faceRect, photoProcessingMode, topHandThres, showContours, n - 1);
      if Qualifies(boxes[n - 1], faceRect, photoProcessingMode, topHandThres) then
        before + [if showContours then Refined(edges, eps, contours[n - 1]) else contours[n - 1]]
      else before
  }

  /** Exactly the qualifying contours are handed on, each as long as its contour. */
  lemma {:induction false} ApplicantsCount(edges: array2<Byte>, eps: int, contours: seq<seq<Point>>, boxes: seq<Rect>,
                                           faceRect: Rect, photoProcessingMode: bool, topHandThres: int, showContours: bool, n: nat)
    requires n <= |contours| == |boxes|
    ensures var a := Applicants(edges, eps, contours, boxes, faceRect, photoProcessingMode, topHandThres, showContours, n);
      |a| == |set i | 0 <= i < n && Qualifies(boxes[i], faceRect, photoProcessingMode, topHandThres)|
  {
    if n > 0 {
      ApplicantsCount(edges, eps, contours, boxes, faceRect, photoProcessingMode, topHandThres, showContours, n - 1);
      var s := set i | 0 <= i < n - 1 && Qualifies(boxes[i], faceRect, photoProcessingMode, topHandThres);
      var t := set i | 0 <= i < n && Qualifies(boxes[i], faceRect, photoProcessingMode, topHandThres);
      if Qualifies(boxes[n - 1], faceRect, photoProcessingMode, topHandThres) {
        assert t == s + {n - 1};
      } else {
        assert t == s;
      }
    }
  }
}
