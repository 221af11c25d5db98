/** The square-ring search for the edge pixel nearest to a contour point
    (ImageProcessor::getNearestCannyPoint).

    The edge map is the Canny output: a byte matrix whose row index is the
    point's y and whose column index is its x; a pixel is an edge pixel when
    its byte is non-zero. */
module RingSearch {
  import opened Geometry

  predicate InMap(edges: array2<Byte>, p: Point)
  {
    0 <= p.x < edges.Length1 && 0 <= p.y < edges.Length0
  }

  /** A set pixel of the edge map; positions outside the map are never edges. */
  predicate IsEdge(edges: array2<Byte>, p: Point)
    reads edges
  {
    InMap(edges, p) && edges[p.y, p.x] > 0
  }

  /** The screen-boundary test made before each ring: ring j around c lies inside the map. */
  predicate RingFits(edges: array2<Byte>, c: Point, j: int)
  {
    c.x - j >= 0 && c.x + j < edges.Length1 && c.y - j >= 0 && c.y + j < edges.Length0
  }

  function Min(a: int, b: int): int
  {
    if a < b then a else b
  }

  /** The largest ring radius around c that stays inside the map (negative when c is outside). */
  function Margin(edges: array2<Byte>, c: Point): (m: int)
    ensures forall j :: RingFits(edges, c, j) <==> j <= m
  {
    Min(Min(c.x, c.y), Min(edges.Length1 - 1 - c.x, edges.Length0 - 1 - c.y))
  }

  /** The last radius the search examines: rings 1..Reach are searched, unless it stops earlier. */
  function Reach(edges: array2<Byte>, c: Point, eps: int): (r: nat)
    ensures r <= eps || r == 0
    ensures forall j :: 1 <= j <= r ==> RingFits(edges, c, j)
    ensures r < eps ==> !RingFits(edges, c, r + 1)
  {
    var m := Min(eps, Margin(edges, c));
    if m < 0 then 0 else m
  }

  /** The k-th pixel visited on ring j: the top side left to right, the right side
      top to bottom, the bottom side right to left, the left side bottom to top,
      each side 2j pixels long and starting at a corner. */
  function RingPoint(c: Point, j: nat, k: nat): (p: Point)
    requires 1 <= j && k < 8 * j
    ensures Chebyshev(p, c) == j
  {
    if k < 2 * j then Point(c.x - j + k, c.y - j)
    else if k < 4 * j then Point(c.x + j, c.y - j + (k - 2 * j))
    else if k < 6 * j then Point(c.x + j - (k - 4 * j), c.y + j)
    else Point(c.x - j, c.y + j - (k - 6 * j))
  }

  /** Where a pixel at Chebyshev distance j from c is visited on ring j:
      the ring walk visits every such pixel. */
  function RingIndex(c: Point, j: nat, p: Point): (k: nat)
    requires 1 <= j && Chebyshev(p, c) == j
    ensures k < 8 * j && RingPoint(c, j, k) == p
  {
    if p.y == c.y - j && p.x < c.x + j then p.x - (c.x - j)
    else if p.x == c.x + j && p.y < c.y + j then 2 * j + (p.y - (c.y - j))
    else if p.y == c.y + j && p.x > c.x - j then 4 * j + (c.x + j - p.x)
    else 6 * j + (c.y + j - p.y)
  }

  /** The edge pixels among the first k pixels of ring j, in visiting order. */
  function RingHits(edges: array2<Byte>, c: Point, j: nat, k: nat): (hs: seq<Point>)
    reads edges
    requires 1 <= j && k <= 8 * j
    decreases k
  {
    if k == 0 then []
    else
      var p := RingPoint(c, j, k - 1);
      RingHits(edges, c, j, k - 1) + (if IsEdge(edges, p) then [p] else [])
  }

  /** The edge pixels collected from rings 1..j (the nearCannyPixels vector). */
  function Scanned(edges: array2<Byte>, c: Point, j: int): (hs: seq<Point>)
    reads edges
    decreases j
  {
    if j <= 0 then [] else Scanned(edges, c, j - 1) + RingHits(edges, c, j, 8 * j)
  }

  /** The anchored tie-break: distance to the contour point plus distance to the anchor. */
  function Cost(c: Point, anchor: Point, p: Point): nat
  {
    Manhattan(p, c) + Manhattan(p, anchor)
  }

  /** The unanchored pick over hs[..k]: a later hit replaces the current one when it is
      strictly closer to c in x or strictly closer in y. */
  function PickNoAnchor(c: Point, hs: seq<Point>, k: nat): (r: Point)
    requires 1 <= k <= |hs|
    ensures r in hs[..k]
  {
    if k == 1 then hs[0]
    else
      var n := PickNoAnchor(c, hs, k - 1);
      var q := hs[k - 1];
      if Abs(c.x - q.x) < Abs(c.x - n.x) || Abs(c.y - q.y) < Abs(c.y - n.y) then q else n
  }

  /** The anchored pick over hs[..k], starting from `from`: hits equal to the anchor are
      skipped, and a hit replaces the current one only when its cost is strictly smaller. */
  function PickAnchored(c: Point, anchor: Point, hs: seq<Point>, from: Point, k: nat): (r: Point)
    requires k <= |hs|
    ensures r == from || r in hs[..k]
    ensures Cost(c, anchor, r) <= Cost(c, anchor, from)
    ensures forall i :: 0 <= i < k && hs[i] != anchor ==> Cost(c, anchor, r) <= Cost(c, anchor, hs[i])
  {
    if k == 0 then from
    else
      var n := PickAnchored(c, anchor, hs, from, k - 1);
      var q := hs[k - 1];
      if q != anchor && Cost(c, anchor, q) < Cost(c, anchor, n) then q else n
  }

  /** The search from ring j on, with `nearest` the pick so far: one step per ring. */
  function Search(edges: array2<Byte>, c: Point, eps: int, anchor: Point, j: nat, nearest: Point): Point
    reads edges
    requires 1 <= j
    decreases if j <= eps then eps - j + 1 else 0
  {
    if j > eps || !RingFits(edges, c, j) then nearest
    else
      var hits := Scanned(edges, c, j);
      if hits == [] then Search(edges, c, eps, anchor, j + 1, nearest)
      else if anchor == NoPoint then PickNoAnchor(c, hits, |hits|)
      else
        var from := if nearest == NoPoint then hits[0] else nearest;
        Search(edges, c, eps, anchor, j + 1, PickAnchored(c, anchor, hits, from, |hits|))
  }

  /** r is the pick so far or an edge pixel within eps rings of c. */
  predicate KeptOrFound(edges: array2<Byte>, c: Point, eps: int, nearest: Point, r: Point)
    reads edges
  {
    r == nearest || (IsEdge(edges, r) && 1 <= Chebyshev(r, c) <= eps)
  }

  /** The search keeps the pick so far or returns an edge pixel within eps rings. */
  lemma {:induction false} SearchKeepsOrFinds(edges: array2<Byte>, c: Point, eps: int, anchor: Point, j: nat, nearest: Point)
    requires 1 <= j
    ensures KeptOrFound(edges, c, eps, nearest, Search(edges, c, eps, anchor, j, nearest))
    decreases if j <= eps then eps - j + 1 else 0
  {
    if j <= eps && RingFits(edges, c, j) {
      var n, done := KeepStep(edges, c, eps, anchor, j, nearest);
      if !done {
        SearchKeepsOrFinds(edges, c, eps, anchor, j + 1, n);
      }
    } else {
      SearchStops(edges, c, eps, anchor, j, nearest);
    }
  }

  /** Past the last ring, or on a ring that leaves the map, the search returns its pick. */
  lemma SearchStops(edges: array2<Byte>, c: Point, eps: int, anchor: Point, j: nat, nearest: Point)
    requires 1 <= j && !(j <= eps && RingFits(edges, c, j))
    ensures Search(edges, c, eps, anchor, j, nearest) == nearest
  {
  }

  /** A ring that fits but adds no edge pixel hands the search on unchanged. */
  lemma SearchEmptyRing(edges: array2<Byte>, c: Point, eps: int, anchor: Point, j: nat, nearest: Point)
    requires 1 <= j <= eps && RingFits(edges, c, j) && Scanned(edges, c, j) == []
    ensures Search(edges, c, eps, anchor, j, nearest) == Search(edges, c, eps, anchor, j + 1, nearest)
  {
  }

  /** One ring of the search: either it ends the search (without an anchor, on an edge
      pixel within eps rings) or it moves on to the next ring with a pick that is the
      previous one or an edge pixel within eps rings. */
  lemma KeepStep(edges: array2<Byte>, c: Point, eps: int, anchor: Point, j: nat, nearest: Point)
    returns (n: Point, done: bool)
    requires 1 <= j <= eps && RingFits(edges, c, j)
    ensures done ==> KeptOrFound(edges, c, eps, nearest, Search(edges, c, eps, anchor, j, nearest))
    ensures !done ==> Search(edges, c, eps, anchor, j, nearest) == Search(edges, c, eps, anchor, j + 1, n)
    ensures KeptOrFound(edges, c, eps, nearest, n)
  {
    var hits := Scanned(edges, c, j);
    if hits == [] {
      n, done := nearest, false;
    } else if anchor == NoPoint {
      var r := PickNoAnchor(c, hits, |hits|);
      assert hits[..|hits|] == hits;
      ScannedSound(edges, c, j, r);
      n, done := nearest, true;
    } else {
      var from := if nearest == NoPoint then hits[0] else nearest;
      n, done := PickAnchored(c, anchor, hits, from, |hits|), false;
      assert hits[..|hits|] == hits;
      if n != nearest {
        assert n in hits;
        ScannedSound(edges, c, j, n);
      }
    }
  }

  /** What getNearestCannyPoint returns for contour point c, merge radius eps and
      anchor prevCanny (NoPoint for none): nothing, or an edge pixel within eps rings. */
  function NearestCanny(edges: array2<Byte>, c: Point, eps: int, anchor: Point): (r: Point)
    reads edges
    ensures r == NoPoint || (IsEdge(edges, r) && 1 <= Chebyshev(r, c) <= eps)
  {
    SearchKeepsOrFinds(edges, c, eps, anchor, 1, NoPoint);
    Search(edges, c, eps, anchor, 1, NoPoint)
  }

  /** The ring search itself, reading the edge map ring by ring. Every read of the
      map is within bounds: the verifier checks each index. */
  method GetNearestCannyPoint(edges: array2<Byte>, eps: int, contourPoint: Point, prevCanny: Point := NoPoint)
    returns (nearestPoint: Point)
    ensures nearestPoint == NearestCanny(edges, contourPoint, eps, prevCanny)
  {
    var c := contourPoint;
    nearestPoint := NoPoint;
    var nearCannyPixels: seq<Point> := [];
    var j := 1;
    while j <= eps
      invariant 1 <= j
      invariant nearCannyPixels == Scanned(edges, c, j - 1)
      invariant Search(edges, c, eps, prevCanny, j, nearestPoint) == NearestCanny(edges, c, eps, prevCanny)
      decreases eps - j
    {
      if c.x - j < 0 || c.x + j >= edges.Length1 || c.y - j < 0 || c.y + j >= edges.Length0 {
        break;
      }
      var found;
      nearCannyPixels, nearestPoint, found := ScanRing(edges, c, eps, prevCanny, j, nearCannyPixels, nearestPoint);
      if found {
        break;
      }
      j := j + 1;
    }
  }

  /** One ring of the search: collects its edge pixels after the earlier ones and picks
      among all of them. Without an anchor a non-empty collection ends the search
      (`found`); otherwise the search goes on to ring j + 1 with the new pick. */
  method ScanRing(edges: array2<Byte>, c: Point, eps: int, prevCanny: Point, j: nat,
                  collected: seq<Point>, nearest: Point)
    returns (nearCannyPixels: seq<Point>, nearestPoint: Point, found: bool)
    requires 1 <= j <= eps && RingFits(edges, c, j)
    requires collected == Scanned(edges, c, j - 1)
    ensures nearCannyPixels == Scanned(edges, c, j)
    ensures found ==> nearestPoint == Search(edges, c, eps, prevCanny, j, nearest)
    ensures !found ==>
      Search(edges, c, eps, prevCanny, j + 1, nearestPoint) == Search(edges, c, eps, prevCanny, j, nearest)
  {
    nearCannyPixels := CollectRing(edges, c, j, collected);
    nearestPoint, found := nearest, false;
    if |nearCannyPixels| > 0 {
      if prevCanny == NoPoint {
        nearestPoint := PickByAxis(c, nearCannyPixels);
        found := true;
      } else {
        if nearestPoint == NoPoint {
          nearestPoint := nearCannyPixels[0];
        }
        nearestPoint := PickByCost(c, prevCanny, nearCannyPixels, nearestPoint);
      }
    }
  }

  /** Every point of a ring that fits lies inside the map. */
  lemma RingPointInMap(edges: array2<Byte>, c: Point, j: nat, k: nat)
    requires 1 <= j && k < 8 * j && RingFits(edges, c, j)
    ensures InMap(edges, RingPoint(c, j, k))
  {
  }

  /** Appends the edge pixels of ring j around c to the collected ones, walking the ring
      in RingPoint order: the top, right, bottom and left sides in turn. */
  method CollectRing(edges: array2<Byte>, c: Point, j: nat, collected: seq<Point>)
    returns (nearCannyPixels: seq<Point>)
    requires 1 <= j && RingFits(edges, c, j)
    ensures nearCannyPixels == collected + RingHits(edges, c, j, 8 * j)
  {
    nearCannyPixels := collected;
    for k := 0 to 8 * j
      invariant nearCannyPixels == collected + RingHits(edges, c, j, k)
    {
      var point := RingPoint(c, j, k);
      RingPointInMap(edges, c, j, k);
      if edges[point.y, point.x] > 0 {
        nearCannyPixels := nearCannyPixels + [point];
      }
    }
  }

  /** The unanchored pick over all collected pixels. */
  method PickByAxis(c: Point, hs: seq<Point>) returns (nearestPoint: Point)
    requires |hs| > 0
    ensures nearestPoint == PickNoAnchor(c, hs, |hs|)
  {
    nearestPoint := hs[0];
    for k := 1 to |hs|
      invariant nearestPoint == PickNoAnchor(c, hs, k)
    {
      var q := hs[k];
      if Abs(c.x - q.x) < Abs(c.x - nearestPoint.x) || Abs(c.y - q.y) < Abs(c.y - nearestPoint.y) {
        nearestPoint := q;
      }
    }
  }

  /** The anchored pick over all collected pixels, starting from `from`. */
  method PickByCost(c: Point, anchor: Point, hs: seq<Point>, from: Point) returns (nearestPoint: Point)
    ensures nearestPoint == PickAnchored(c, anchor, hs, from, |hs|)
  {
    nearestPoint := from;
    for k := 0 to |hs|
      invariant nearestPoint == PickAnchored(c, anchor, hs, from, k)
    {
      var q := hs[k];
      if q == anchor {
        continue;
      }
      if Cost(c, anchor, q) < Cost(c, anchor, nearestPoint) {
        nearestPoint := q;
      }
    }
  }

  // ---------------------------------------------------------------------------
  // What the search finds, stated pixel by pixel

  lemma {:induction false} RingHitsComplete(edges: array2<Byte>, c: Point, j: nat, k: nat, i: nat)
    requires 1 <= j && i < k <= 8 * j
    requires IsEdge(edges, RingPoint(c, j, i))
    ensures RingPoint(c, j, i) in RingHits(edges, c, j, k)
    decreases k
  {
    if i < k - 1 {
      RingHitsComplete(edges, c, j, k - 1, i);
    }
  }

  /** Ring j yields only edge pixels at Chebyshev distance j from c. */
  lemma {:induction false} RingHitsSound(edges: array2<Byte>, c: Point, j: nat, k: nat, h: Point)
    requires 1 <= j && k <= 8 * j && h in RingHits(edges, c, j, k)
    ensures IsEdge(edges, h) && Chebyshev(h, c) == j
    decreases k
  {
    if h in RingHits(edges, c, j, k - 1) {
      RingHitsSound(edges, c, j, k - 1, h);
    }
  }

  /** Rings 1..j yield only edge pixels at Chebyshev distance 1..j from c. */
  lemma {:induction false} ScannedSound(edges: array2<Byte>, c: Point, j: int, h: Point)
    requires h in Scanned(edges, c, j)
    ensures IsEdge(edges, h) && 1 <= Chebyshev(h, c) <= j
    decreases j
  {
    if h in Scanned(edges, c, j - 1) {
      ScannedSound(edges, c, j - 1, h);
    } else {
      RingHitsSound(edges, c, j, 8 * j, h);
    }
  }

  /** Every pixel collected from rings 1..j is an edge pixel at distance 1..j. */
  lemma ScannedAllSound(edges: array2<Byte>, c: Point, j: int)
    ensures forall h :: h in Scanned(edges, c, j) ==> IsEdge(edges, h) && 1 <= Chebyshev(h, c) <= j
  {
    forall h | h in Scanned(edges, c, j)
      ensures IsEdge(edges, h) && 1 <= Chebyshev(h, c) <= j
    {
      ScannedSound(edges, c, j, h);
    }
  }

  /** Rings 1..j hold every edge pixel at Chebyshev distance 1..j from c. */
  lemma {:induction false} ScannedComplete(edges: array2<Byte>, c: Point, j: nat, p: Point)
    requires IsEdge(edges, p) && 1 <= Chebyshev(p, c) <= j
    ensures p in Scanned(edges, c, j)
  {
    if Chebyshev(p, c) == j {
      RingHitsComplete(edges, c, j, 8 * j, RingIndex(c, j, p));
    } else {
      ScannedComplete(edges, c, j - 1, p);
    }
  }

  /** Nothing is collected from rings 1..j exactly when no edge pixel lies at distance 1..j. */
  lemma ScannedEmpty(edges: array2<Byte>, c: Point, j: nat)
    ensures Scanned(edges, c, j) == [] <==> forall p :: 1 <= Chebyshev(p, c) <= j ==> !IsEdge(edges, p)
  {
    if Scanned(edges, c, j) == [] {
      forall p | 1 <= Chebyshev(p, c) <= j
        ensures !IsEdge(edges, p)
      {
        if IsEdge(edges, p) {
          ScannedComplete(edges, c, j, p);
        }
      }
    } else {
      var h := Scanned(edges, c, j)[0];
      ScannedSound(edges, c, j, h);
    }
  }

  lemma {:induction false} ScannedEmptyBelow(edges: array2<Byte>, c: Point, i: nat, j: nat)
    requires i <= j && Scanned(edges, c, j) == []
    ensures Scanned(edges, c, i) == []
    decreases j
  {
    if i < j {
      ScannedEmptyBelow(edges, c, i, j - 1);
    }
  }

  lemma {:induction false} SearchWithoutAnchorNone(edges: array2<Byte>, c: Point, eps: int, j: nat)
    requires 1 <= j && j - 1 <= Reach(edges, c, eps)
    requires Scanned(edges, c, j - 1) == []
    ensures Search(edges, c, eps, NoPoint, j, NoPoint) == NoPoint <==> Scanned(edges, c, Reach(edges, c, eps)) == []
    decreases if j <= eps then eps - j + 1 else 0
  {
    if j > eps || !RingFits(edges, c, j) {
      SearchStops(edges, c, eps, NoPoint, j, NoPoint);
      assert Reach(edges, c, eps) == j - 1;
    } else {
      var hits := Scanned(edges, c, j);
      if hits == [] {
        SearchEmptyRing(edges, c, eps, NoPoint, j, NoPoint);
        SearchWithoutAnchorNone(edges, c, eps, j + 1);
      } else {
        FirstHitFound(edges, c, eps, j);
      }
    }
  }

  /** A search that reaches a ring with edge pixels returns one, and something was collected. */
  lemma FirstHitFound(edges: array2<Byte>, c: Point, eps: int, j: nat)
    requires 1 <= j <= eps && RingFits(edges, c, j) && j <= Reach(edges, c, eps)
    requires Scanned(edges, c, j) != []
    ensures Search(edges, c, eps, NoPoint, j, NoPoint) != NoPoint
    ensures Scanned(edges, c, Reach(edges, c, eps)) != []
  {
    var hits := Scanned(edges, c, j);
    var r := PickNoAnchor(c, hits, |hits|);
    assert hits[..|hits|] == hits;
    ScannedSound(edges, c, j, r);
    ScannedPrefix(edges, c, j, Reach(edges, c, eps));
  }

  /** The first ring with an edge pixel ends the unanchored search with a pixel of that ring. */
  lemma FirstHitRing(edges: array2<Byte>, c: Point, eps: int, j: nat)
    requires 1 <= j <= eps && RingFits(edges, c, j)
    requires Scanned(edges, c, j - 1) == [] && Scanned(edges, c, j) != []
    ensures var r := Search(edges, c, eps, NoPoint, j, NoPoint);
      r in Scanned(edges, c, j) && Chebyshev(r, c) == j
  {
    var hits := Scanned(edges, c, j);
    assert hits == RingHits(edges, c, j, 8 * j);
    var r := PickNoAnchor(c, hits, |hits|);
    assert hits[..|hits|] == hits;
    RingHitsSound(edges, c, j, 8 * j, r);
  }

  lemma {:induction false} SearchWithoutAnchorFound(edges: array2<Byte>, c: Point, eps: int, j: nat)
    requires 1 <= j && j - 1 <= Reach(edges, c, eps)
    requires Scanned(edges, c, j - 1) == []
    ensures var r := Search(edges, c, eps, NoPoint, j, NoPoint);
      var hits := Scanned(edges, c, Reach(edges, c, eps));
      r != NoPoint ==> r in hits && forall h :: h in hits ==> Chebyshev(r, c) <= Chebyshev(h, c)
    decreases if j <= eps then eps - j + 1 else 0
  {
    if j > eps || !RingFits(edges, c, j) {
    } else if Scanned(edges, c, j) == [] {
      SearchEmptyRing(edges, c, eps, NoPoint, j, NoPoint);
      SearchWithoutAnchorFound(edges, c, eps, j + 1);
    } else {
      FirstHitNearest(edges, c, eps, j);
    }
  }

  /** When ring j is the first with an edge pixel, the pixel it yields is nearest among all collected. */
  lemma FirstHitNearest(edges: array2<Byte>, c: Point, eps: int, j: nat)
    requires 1 <= j <= eps && RingFits(edges, c, j) && j <= Reach(edges, c, eps)
    requires Scanned(edges, c, j - 1) == [] && Scanned(edges, c, j) != []
    ensures var r := Search(edges, c, eps, NoPoint, j, NoPoint);
      var hits := Scanned(edges, c, Reach(edges, c, eps));
      r in hits && forall h :: h in hits ==> Chebyshev(r, c) <= Chebyshev(h, c)
  {
    var reach := Reach(edges, c, eps);
    FirstHitRing(edges, c, eps, j);
    ScannedPrefix(edges, c, j, reach);
    forall h | h in Scanned(edges, c, reach)
      ensures j <= Chebyshev(h, c)
    {
      ScannedSound(edges, c, reach, h);
      if Chebyshev(h, c) < j {
        ScannedComplete(edges, c, j - 1, h);
      }
    }
  }

  lemma {:induction false} ScannedPrefix(edges: array2<Byte>, c: Point, i: nat, j: nat)
    requires i <= j
    ensures Scanned(edges, c, i) <= Scanned(edges, c, j)
    decreases j
  {
    if i < j {
      ScannedPrefix(edges, c, i, j - 1);
    }
  }

  /** Without an anchor: the search finds nothing exactly when no edge pixel lies within the
      searched radius; otherwise it returns an edge pixel on the smallest ring that has one. */
  lemma NearestWithoutAnchor(edges: array2<Byte>, c: Point, eps: int)
    ensures var r := NearestCanny(edges, c, eps, NoPoint);
      var reach := Reach(edges, c, eps);
      (r == NoPoint <==> forall p :: 1 <= Chebyshev(p, c) <= reach ==> !IsEdge(edges, p)) &&
      (r != NoPoint ==>
        IsEdge(edges, r) && 1 <= Chebyshev(r, c) <= reach &&
        forall p :: 1 <= Chebyshev(p, c) < Chebyshev(r, c) ==> !IsEdge(edges, p))
  {
    var r := NearestCanny(edges, c, eps, NoPoint);
    var reach := Reach(edges, c, eps);
    SearchWithoutAnchorNone(edges, c, eps, 1);
    SearchWithoutAnchorFound(edges, c, eps, 1);
    ScannedEmpty(edges, c, reach);
    if r != NoPoint {
      ScannedSound(edges, c, reach, r);
      forall p | 1 <= Chebyshev(p, c) < Chebyshev(r, c)
        ensures !IsEdge(edges, p)
      {
        if IsEdge(edges, p) {
          ScannedComplete(edges, c, reach, p);
        }
      }
    }
  }

  /** n is the anchored pick over hs: absent exactly when hs is empty, and otherwise a
      member of hs that no member other than the anchor beats on cost. */
  predicate BestByCost(c: Point, anchor: Point, hs: seq<Point>, n: Point)
  {
    (n == NoPoint <==> hs == []) &&
    (n != NoPoint ==> n in hs && forall h :: h in hs && h != anchor ==> Cost(c, anchor, n) <= Cost(c, anchor, h))
  }

  /** One ring of the anchored search: the pick n it hands to the next ring is the best
      over everything collected so far. */
  lemma AnchoredStep(edges: array2<Byte>, c: Point, eps: int, anchor: Point, j: nat, nearest: Point)
    returns (n: Point)
    requires anchor != NoPoint
    requires 1 <= j <= eps && RingFits(edges, c, j)
    requires BestByCost(c, anchor, Scanned(edges, c, j - 1), nearest)
    ensures Search(edges, c, eps, anchor, j, nearest) == Search(edges, c, eps, anchor, j + 1, n)
    ensures BestByCost(c, anchor, Scanned(edges, c, j), n)
  {
    var hits := Scanned(edges, c, j);
    if hits == [] {
      ScannedEmptyBelow(edges, c, j - 1, j);
      n := nearest;
    } else {
      var from := if nearest == NoPoint then hits[0] else nearest;
      n := PickAnchored(c, anchor, hits, from, |hits|);
      assert Scanned(edges, c, j - 1) <= hits;
      assert hits[..|hits|] == hits;
      forall h | h in hits
        ensures h != NoPoint
      {
        ScannedSound(edges, c, j, h);
      }
      forall h | h in hits && h != anchor
        ensures Cost(c, anchor, n) <= Cost(c, anchor, h)
      {
        var i :| 0 <= i < |hits| && hits[i] == h;
      }
    }
  }

  lemma {:induction false} SearchWithAnchor(edges: array2<Byte>, c: Point, eps: int, anchor: Point, j: nat, nearest: Point)
    requires anchor != NoPoint
    requires 1 <= j && j - 1 <= Reach(edges, c, eps)
    requires BestByCost(c, anchor, Scanned(edges, c, j - 1), nearest)
    ensures BestByCost(c, anchor, Scanned(edges, c, Reach(edges, c, eps)), Search(edges, c, eps, anchor, j, nearest))
    decreases if j <= eps then eps - j + 1 else 0
  {
    if j > eps || !RingFits(edges, c, j) {
      SearchStops(edges, c, eps, anchor, j, nearest);
      assert Reach(edges, c, eps) == j - 1;
    } else {
      var n := AnchoredStep(edges, c, eps, anchor, j, nearest);
      SearchWithAnchor(edges, c, eps, anchor, j + 1, n);
    }
  }

  /** With an anchor: the search finds nothing exactly when no edge pixel lies within the
      searched radius; otherwise it returns an edge pixel within that radius whose cost
      (distance to c plus distance to the anchor) no other edge pixel in the radius,
      the anchor aside, beats. */
  lemma NearestWithAnchor(edges: array2<Byte>, c: Point, eps: int, anchor: Point)
    requires anchor != NoPoint
    ensures var r := NearestCanny(edges, c, eps, anchor);
      var reach := Reach(edges, c, eps);
      (r == NoPoint <==> forall p :: 1 <= Chebyshev(p, c) <= reach ==> !IsEdge(edges, p)) &&
      (r != NoPoint ==>
        IsEdge(edges, r) && 1 <= Chebyshev(r, c) <= reach &&
        forall p :: IsEdge(edges, p) && 1 <= Chebyshev(p, c) <= reach && p != anchor ==>
          Cost(c, anchor, r) <= Cost(c, anchor, p))
  {
    var r := NearestCanny(edges, c, eps, anchor);
    var reach := Reach(edges, c, eps);
    SearchWithAnchor(edges, c, eps, anchor, 1, NoPoint);
    ScannedEmpty(edges, c, reach);
    if r != NoPoint {
      ScannedSound(edges, c, reach, r);
    }
    forall p | IsEdge(edges, p) && 1 <= Chebyshev(p, c) <= reach
      ensures p in Scanned(edges, c, reach)
    {
      ScannedComplete(edges, c, reach, p);
    }
  }

  /** Whatever the anchor, a found point is an edge pixel on a ring of radius 1..eps that
      lies wholly inside the map. */
  lemma NearestIsNearbyEdge(edges: array2<Byte>, c: Point, eps: int, anchor: Point)
    ensures var r := NearestCanny(edges, c, eps, anchor);
      r != NoPoint ==>
        IsEdge(edges, r) && 1 <= Chebyshev(r, c) <= eps &&
        forall j :: 1 <= j <= Chebyshev(r, c) ==> RingFits(edges, c, j)
  {
    if anchor == NoPoint {
      NearestWithoutAnchor(edges, c, eps);
    } else {
      NearestWithAnchor(edges, c, eps, anchor);
    }
  }

  /** A merge radius below 1 switches the search off. */
  lemma NoRadiusFindsNothing(edges: array2<Byte>, c: Point, eps: int, anchor: Point)
    requires eps < 1
    ensures NearestCanny(edges, c, eps, anchor) == NoPoint
  {
  }

  /** The unanchored pick is not the Manhattan-nearest hit: on ring 2 around the origin,
      a hit 3 steps away replaces an earlier one 2 steps away. */
  lemma PickNoAnchorNotManhattanNearest()
    ensures var hs := [Point(0, -2), Point(2, 1)];
      PickNoAnchor(Point(0, 0), hs, 2) == Point(2, 1) &&
      Manhattan(Point(2, 1), Point(0, 0)) > Manhattan(Point(0, -2), Point(0, 0))
  {
  }
}
