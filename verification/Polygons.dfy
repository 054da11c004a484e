/** Ray casting in a polygon of latitudes and longitudes, with exact reals. */
module Polygons {

  datatype Point = Point(lat: real, lng: real)

  /** Number.EPSILON, 2 to the power -52. */
  const EPSILON: real := 1.0 / 4503599627370496.0

  /** The edge between the two vertices has one end above the latitude and one not above it. */
  predicate Straddles(lat: real, a: Point, b: Point) {
    (a.lat > lat) != (b.lat > lat)
  }

  /**
    The point lies west of where the edge from vertex b to vertex a is computed to cross its latitude. A denominator
    of zero gives plus or minus infinity by the sign of the numerator, or NaN, which is not greater than anything.
  */
  predicate WestOf(lat: real, lng: real, a: Point, b: Point) {
    var numerator := (b.lng - a.lng) * (lat - a.lat);
    var denominator := b.lat - a.lat + EPSILON;
    if denominator == 0.0 then numerator > 0.0 else lng < numerator / denominator + a.lng
  }

  predicate Intersects(lat: real, lng: real, a: Point, b: Point) {
    Straddles(lat, a, b) && WestOf(lat, lng, a, b)
  }

  // Paths: each vertex after the first makes an edge with the one before it.

  /** How many edges of the path have the property. */
  function Edges(path: seq<Point>, f: (Point, Point) -> bool): nat {
    if |path| <= 1 then 0
    else
      var n := |path| - 1;
      Edges(path[..n], f) + (if f(path[n], path[n - 1]) then 1 else 0)
  }

  /** The polygon as a path that ends where it begins. */
  function Closed(points: seq<Point>): (path: seq<Point>)
    requires points != []
    ensures |path| == |points| + 1 && path[0] == path[|points|]
  {
    [points[|points| - 1]] + points
  }

  function Crossing(lat: real, lng: real): (Point, Point) -> bool {
    (a, b) => Intersects(lat, lng, a, b)
  }

  predicate Odd(n: nat) {
    n % 2 == 1
  }

  /** The first k vertices and the next one. */
  lemma EdgesOneMore(path: seq<Point>, k: nat, f: (Point, Point) -> bool)
    requires 0 < k < |path|
    ensures Odd(Edges(path[..k + 1], f)) == (Odd(Edges(path[..k], f)) != f(path[k], path[k - 1]))
  {
    assert path[..k + 1][..k] == path[..k];
  }

  lemma NoEdgeYet(path: seq<Point>, f: (Point, Point) -> bool)
    ensures path != [] ==> !Odd(Edges(path[..1], f))
  {
  }

  /** The number of edges that the ray east from the point intersects is odd. */
  predicate Inside(lat: real, lng: real, points: seq<Point>) {
    points != [] && Odd(Edges(Closed(points), Crossing(lat, lng)))
  }

  method PointInPolygon(lat: real, lng: real, points: seq<Point>) returns (inside: bool)
    ensures inside == Inside(lat, lng, points)
  {
    hide Intersects, Edges, Odd;
    inside := false;
    var i, j := 0, |points| - 1;
    ghost var path := if points == [] then [] else Closed(points);
    ghost var f := Crossing(lat, lng);
    assert points != [] ==> !Odd(Edges(path[..1], f)) by { NoEdgeYet(path, f); }
    while i < |points|
      invariant 0 <= i <= |points| && j == if i == 0 then |points| - 1 else i - 1
      invariant points == [] ==> !inside
      invariant points != [] ==> inside == Odd(Edges(path[..i + 1], f))
    {
      assert path[i + 1] == points[i] && path[i] == points[j];
      EdgesOneMore(path, i + 1, f);
      if Intersects(lat, lng, points[i], points[j]) {
        inside := !inside;
      }
      j := i;
      i := i + 1;
    }
    assert path[..|path|] == path;
  }

  // Rotating the vertex list.

  /** Two paths joined at a vertex. */
  lemma {:induction false} EdgesJoin(x: seq<Point>, v: Point, y: seq<Point>, f: (Point, Point) -> bool)
    ensures Edges(x + [v] + y, f) == Edges(x + [v], f) + Edges([v] + y, f)
    decreases |y|
  {
    if y == [] {
      assert x + [v] + y == x + [v];
    } else {
      var m := |y| - 1;
      var whole, tail := x + [v] + y, [v] + y;
      assert whole[..|whole| - 1] == x + [v] + y[..m];
      assert tail[..|tail| - 1] == [v] + y[..m];
      assert whole[|whole| - 1] == tail[|tail| - 1] && whole[|whole| - 2] == tail[|tail| - 2];
      EdgesJoin(x, v, y[..m], f);
    }
  }

  lemma RotationKeepsEdges(a: seq<Point>, b: seq<Point>, f: (Point, Point) -> bool)
    requires a != [] && b != []
    ensures Edges(Closed(a + b), f) == Edges(Closed(b + a), f)
  {
    var lastA, lastB := a[|a| - 1], b[|b| - 1];
    assert Closed(a + b) == ([lastB] + a[..|a| - 1]) + [lastA] + b;
    assert Closed(b + a) == ([lastA] + b[..|b| - 1]) + [lastB] + a;
    assert ([lastB] + a[..|a| - 1]) + [lastA] == [lastB] + a;
    assert ([lastA] + b[..|b| - 1]) + [lastB] == [lastA] + b;
    EdgesJoin([lastB] + a[..|a| - 1], lastA, b, f);
    EdgesJoin([lastA] + b[..|b| - 1], lastB, a, f);
  }

  /** Where the vertex list starts does not matter. */
  lemma InsideIgnoresRotation(lat: real, lng: real, points: seq<Point>, k: nat)
    requires k <= |points|
    ensures Inside(lat, lng, points[k..] + points[..k]) == Inside(lat, lng, points)
  {
    var a, b := points[..k], points[k..];
    assert a + b == points;
    if a == [] {
      assert b + a == points;
    } else if b == [] {
      assert b + a == points;
    } else {
      RotationKeepsEdges(a, b, Crossing(lat, lng));
    }
    hide Edges, Intersects;
  }

  // Straddling edges come in pairs.

  predicate Above(lat: real, p: Point) {
    p.lat > lat
  }

  lemma {:induction false} StraddlesParity(path: seq<Point>, lat: real)
    requires path != []
    ensures Edges(path, (a, b) => Straddles(lat, a, b)) % 2 == 1 <==>
            Above(lat, path[0]) != Above(lat, path[|path| - 1])
  {
    if |path| > 1 {
      StraddlesParity(path[..|path| - 1], lat);
    }
  }

  /** A closed polygon has an even number of edges across any latitude. */
  lemma ClosedStraddlesEvenly(points: seq<Point>, lat: real)
    requires points != []
    ensures Edges(Closed(points), (a, b) => Straddles(lat, a, b)) % 2 == 0
  {
    StraddlesParity(Closed(points), lat);
  }

  lemma {:induction false} EdgesAgree(path: seq<Point>, f: (Point, Point) -> bool, g: (Point, Point) -> bool)
    requires forall k | 0 < k < |path| :: f(path[k], path[k - 1]) == g(path[k], path[k - 1])
    ensures Edges(path, f) == Edges(path, g)
  {
    if |path| > 1 {
      var front := path[..|path| - 1];
      forall k | 0 < k < |front| ensures f(front[k], front[k - 1]) == g(front[k], front[k - 1]) {
        assert front[k] == path[k] && front[k - 1] == path[k - 1];
      }
      EdgesAgree(front, f, g);
    }
  }

  /** A point west of every computed crossing of its latitude is outside, and so is one west of none. */
  lemma FarAwayIsOutside(lat: real, lng: real, points: seq<Point>)
    requires points != []
    requires var path := Closed(points);
             || (forall k | 0 < k < |path| :: Straddles(lat, path[k], path[k - 1]) ==>
                 WestOf(lat, lng, path[k], path[k - 1]))
             || (forall k | 0 < k < |path| :: Straddles(lat, path[k], path[k - 1]) ==>
                 !WestOf(lat, lng, path[k], path[k - 1]))
    ensures !Inside(lat, lng, points)
  {
    var path := Closed(points);
    var f, g := Crossing(lat, lng), (a, b) => Straddles(lat, a, b);
    hide WestOf, Straddles, Closed;
    if forall k | 0 < k < |path| :: Straddles(lat, path[k], path[k - 1]) ==> WestOf(lat, lng, path[k], path[k - 1]) {
      EdgesAgree(path, f, g);
      ClosedStraddlesEvenly(points, lat);
    } else {
      EdgesAgree(path, f, (a, b) => false);
      NoEdges(path);
    }
  }

  lemma {:induction false} NoEdges(path: seq<Point>)
    ensures Edges(path, (a, b) => false) == 0
  {
    if |path| > 1 {
      NoEdges(path[..|path| - 1]);
    }
  }

  // Rectangles.

  function Rectangle(south: real, west: real, north: real, east: real): seq<Point> {
    [Point(south, west), Point(south, east), Point(north, east), Point(north, west)]
  }

  lemma FourEdges(p: Point, q: Point, r: Point, s: Point, f: (Point, Point) -> bool)
    ensures Edges(Closed([p, q, r, s]), f) ==
            (if f(p, s) then 1 else 0) + (if f(q, p) then 1 else 0) + (if f(r, q) then 1 else 0)
                + (if f(s, r) then 1 else 0)
  {
    var path := [s, p, q, r, s];
    assert Closed([p, q, r, s]) == path;
    assert path[..4] == [s, p, q, r] && path[..4][..3] == [s, p, q] && path[..3][..2] == [s, p]
        && path[..2][..1] == [s];
    assert path[..4][..3] == path[..3] && path[..3][..2] == path[..2];
    assert Edges(path[..1], f) == 0;
    assert Edges(path[..2], f) == if f(p, s) then 1 else 0;
    assert Edges(path[..3], f) == Edges(path[..2], f) + (if f(q, p) then 1 else 0);
    assert Edges(path[..4], f) == Edges(path[..3], f) + (if f(r, q) then 1 else 0);
  }

  /** A north-south edge is crossed at its own longitude, unless the denominator happens to be zero. */
  lemma VerticalEdge(lat: real, lng: real, a: Point, b: Point)
    requires a.lng == b.lng
    ensures WestOf(lat, lng, a, b) <==> b.lat - a.lat + EPSILON != 0.0 && lng < a.lng
  {
    assert (b.lng - a.lng) * (lat - a.lat) == 0.0;
  }

  /**
    A point is inside a rectangle exactly when it lies between its sides, the south and west ones included; unless the
    rectangle is exactly EPSILON high, when the test misses the east side.
  */
  lemma RectangleExactly(lat: real, lng: real, south: real, west: real, north: real, east: real)
    requires south < north && west < east
    ensures Inside(lat, lng, Rectangle(south, west, north, east)) <==>
            south <= lat < north && if north - south == EPSILON then lng < west else west <= lng < east
  {
    var p, q, r, s := Point(south, west), Point(south, east), Point(north, east), Point(north, west);
    FourEdges(p, q, r, s, Crossing(lat, lng));
    VerticalEdge(lat, lng, p, s);
    VerticalEdge(lat, lng, r, q);
    hide WestOf, Edges, Closed;
  }

  // Slanted edges.

  function Abs(x: real): real {
    if x < 0.0 then -x else x
  }

  /** Where the line through the two vertices crosses the latitude. */
  function CrossingAt(lat: real, a: Point, b: Point): (x: real)
    requires a.lat != b.lat
    ensures (x - a.lng) * (b.lat - a.lat) == (b.lng - a.lng) * (lat - a.lat)
  {
    (b.lng - a.lng) * (lat - a.lat) / (b.lat - a.lat) + a.lng
  }

  /** The edge is not nearly level, and the point is not too near the place where it crosses the latitude. */
  predicate Clear(lat: real, lng: real, a: Point, b: Point) {
    && Abs(b.lat - a.lat) >= 0.000000000000001 && a.lat != b.lat
    && Abs(lng - CrossingAt(lat, a, b)) * Abs(b.lat - a.lat) > 0.000000000000001 * Abs(b.lng - a.lng)
  }

  lemma AbsProduct(x: real, y: real)
    ensures Abs(x * y) == Abs(x) * Abs(y)
  {
  }

  lemma LessScaled(x: real, y: real, s: real)
    requires s > 0.0
    ensures x < y <==> x * s < y * s
    ensures x <= y <==> x * s <= y * s
  {
    assert y * s - x * s == (y - x) * s;
  }

  /** The offset of the crossing from vertex a is within the width of the edge. */
  lemma OffsetWithinEdge(lat: real, a: Point, b: Point, y: real)
    requires Straddles(lat, a, b) && y * (b.lat - a.lat) == (b.lng - a.lng) * (lat - a.lat)
    ensures Abs(y) <= Abs(b.lng - a.lng)
  {
    var height, width, up := b.lat - a.lat, b.lng - a.lng, lat - a.lat;
    AbsProduct(y, height);
    AbsProduct(width, up);
    assert Abs(up) <= Abs(height) && Abs(height) > 0.0;
    Monotone(Abs(width), Abs(up), Abs(height));
    LessScaled(Abs(y), Abs(width), Abs(height));
  }

  lemma Monotone(x: real, s: real, t: real)
    requires x >= 0.0 && s <= t
    ensures x * s <= x * t
  {
    assert x * t - x * s == x * (t - s);
  }

  lemma SumNearly(height: real, e: real)
    requires e > 0.0 && Abs(height) >= 2.0 * e
    ensures Abs(height + e) > 0.0 && 2.0 * Abs(height + e) >= Abs(height)
  {
  }

  lemma OffsetScaled(height: real, e: real, y: real, q: real)
    requires e > 0.0 && Times(q, height + e) == Times(y, height)
    ensures Times(Abs(q - y), Abs(height + e)) == Times(e, Abs(y))
  {
    var z := -y;
    assert (q - y) * (height + e) == e * z;
    AbsProduct(q - y, height + e);
    AbsProduct(e, z);
  }

  function Times(x: real, y: real): real {
    x * y
  }

  lemma TimesGrows(x: real, s: real, t: real)
    requires x >= 0.0 && s <= t
    ensures Times(x, s) <= Times(x, t)
  {
    Monotone(x, s, t);
  }

  lemma TimesTwice(x: real, s: real)
    ensures Times(x, 2.0 * s) == 2.0 * Times(x, s)
  {
  }

  lemma TimesLess(x: real, y: real, s: real)
    requires s > 0.0 && Times(x, s) < Times(y, s)
    ensures x < y
  {
    LessScaled(x, y, s);
  }

  /** With e added to the height, the offset q differs from the true one y by less than d. */
  lemma ComputedNearby(height: real, width: real, e: real, y: real, q: real, d: real)
    requires e > 0.0 && Abs(height) >= 2.0 * e && Times(q, height + e) == Times(y, height) && Abs(y) <= Abs(width)
    requires Times(d, Abs(height)) > 2.0 * Times(e, Abs(width)) && d >= 0.0
    ensures Abs(q - y) < d
  {
    hide Abs, Times;
    SumNearly(height, e);
    OffsetScaled(height, e, y, q);
    var s := Abs(height + e);
    TimesGrows(e, Abs(y), Abs(width));
    TimesGrows(d, Abs(height), 2.0 * s);
    TimesTwice(d, s);
    TimesLess(Abs(q - y), d, s);
  }

  lemma WestOfIs(lat: real, lng: real, a: Point, b: Point, q: real)
    requires b.lat - a.lat + EPSILON != 0.0 && q * (b.lat - a.lat + EPSILON) == (b.lng - a.lng) * (lat - a.lat)
    ensures WestOf(lat, lng, a, b) <==> lng < q + a.lng
  {
    Quotient((b.lng - a.lng) * (lat - a.lat), b.lat - a.lat + EPSILON, q);
  }

  lemma NotTooNear(d: real, height: real, width: real)
    requires d * height > 0.000000000000001 * width && width >= 0.0
    ensures Times(d, height) > 2.0 * Times(EPSILON, width)
  {
  }

  /** Away from the crossing, the addition of EPSILON does not matter. */
  lemma WestIsTrue(lat: real, lng: real, a: Point, b: Point)
    requires Straddles(lat, a, b) && Clear(lat, lng, a, b)
    ensures WestOf(lat, lng, a, b) <==> lng < CrossingAt(lat, a, b)
  {
    hide CrossingAt, WestOf, Abs;
    var x, height := CrossingAt(lat, a, b), b.lat - a.lat;
    var y := x - a.lng;
    SumNearly(height, EPSILON);
    SizeZero(height + EPSILON);
    var q := (b.lng - a.lng) * (lat - a.lat) / (height + EPSILON);
    Quotient((b.lng - a.lng) * (lat - a.lat), height + EPSILON, q);
    OffsetWithinEdge(lat, a, b, y);
    WestOfIs(lat, lng, a, b, q);
    SizeZero(lng - x);
    SizeZero(b.lng - a.lng);
    NotTooNear(Abs(lng - x), Abs(height), Abs(b.lng - a.lng));
    ComputedNearby(height, b.lng - a.lng, EPSILON, y, q, Abs(lng - x));
    assert q - y == q + a.lng - x;
    SameSide(lng, x, q + a.lng);
  }

  lemma SizeZero(x: real)
    ensures Abs(x) >= 0.0 && (Abs(x) > 0.0 <==> x != 0.0)
  {
  }

  lemma SameSide(lng: real, x: real, z: real)
    requires Abs(z - x) < Abs(lng - x)
    ensures lng < z <==> lng < x
  {
  }

  lemma Quotient(n: real, d: real, q: real)
    requires d != 0.0
    ensures q * d == n <==> n / d == q
  {
    assert (n / d) * d == n;
    assert q * d - (n / d) * d == (q - n / d) * d;
  }

  /** The ray east from the point crosses the edge. */
  predicate TrulyCrosses(lat: real, lng: real, a: Point, b: Point) {
    Straddles(lat, a, b) && lng < CrossingAt(lat, a, b)
  }

  /** A point that is clear of every edge across its latitude is inside exactly when an odd number of them lie east. */
  lemma InsideIsRayCasting(lat: real, lng: real, points: seq<Point>)
    requires points != []
    requires var path := Closed(points);
             forall k | 0 < k < |path| && Straddles(lat, path[k], path[k - 1]) :: Clear(lat, lng, path[k], path[k - 1])
    ensures Inside(lat, lng, points)
            <==> Odd(Edges(Closed(points), (a: Point, b: Point) => TrulyCrosses(lat, lng, a, b)))
  {
    var path := Closed(points);
    var f, g := Crossing(lat, lng), (a: Point, b: Point) => TrulyCrosses(lat, lng, a, b);
    forall k | 0 < k < |path| ensures f(path[k], path[k - 1]) == g(path[k], path[k - 1]) {
      if Straddles(lat, path[k], path[k - 1]) {
        WestIsTrue(lat, lng, path[k], path[k - 1]);
      }
    }
    hide Clear, WestOf, CrossingAt, Closed, Edges;
    EdgesAgree(path, f, g);
  }
}
