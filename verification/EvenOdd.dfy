/** Even-odd classification of points against polygon rings, and distances to their
    boundary, over the real numbers. */
module EvenOdd {
  import opened Basics

  datatype Point = Point(lng: real, lat: real)

  // ----- crossings -----

  function CrossingLng(lat: real, a: Point, b: Point): real
    requires a.lat != b.lat
  {
    ((b.lng - a.lng) * (lat - a.lat)) / (b.lat - a.lat) + a.lng
  }

  /** The eastward ray from p crosses the edge between a and b. */
  predicate Crosses(p: Point, a: Point, b: Point) {
    (a.lat > p.lat) != (b.lat > p.lat) && p.lng < CrossingLng(p.lat, a, b)
  }

  /** Whether the ray crosses the path through these points an odd number of times. */
  predicate Odd(p: Point, path: seq<Point>) {
    |path| >= 2 && Crosses(p, path[1], path[0]) != Odd(p, path[1..])
  }

  /** The vertices of a closed ring, whose last position repeats its first. */
  function Vertices(ring: seq<Point>): seq<Point> {
    if ring == [] then [] else ring[..|ring| - 1]
  }

  predicate Inside(p: Point, vertices: seq<Point>) {
    vertices != [] && Odd(p, vertices + [vertices[0]])
  }

  method InRing(p: Point, ring: seq<Point>) returns (contained: bool)
    ensures contained == Inside(p, Vertices(ring))
  {
    contained := false;
    if |ring| <= 1 {
      return;
    }
    ghost var vertices := Vertices(ring);
    ghost var n := |vertices|;
    var i, j := 0, |ring| - 2;
    while i < |ring| - 1
      invariant 0 <= i <= n && j == if i == 0 then n - 1 else i - 1
      invariant contained == (i > 0 && Crosses(p, vertices[0], vertices[n - 1]) != Odd(p, vertices[..i]))
    {
      if Crosses(p, ring[i], ring[j]) {
        contained := !contained;
      }
      if i > 0 {
        assert vertices[..i + 1] == vertices[..i] + [vertices[i]];
        OddSnoc(p, vertices[..i], vertices[i]);
      }
      j := i;
      i := i + 1;
    }
    assert vertices[..n] == vertices;
    OddSnoc(p, vertices, vertices[0]);
  }

  // ----- crossings are symmetric and lie on the edge -----

  lemma Quotient(n: real, d: real, q: real)
    requires d != 0.0 && n == q * d
    ensures n / d == q
  {
  }

  lemma CrossingSymmetric(lat: real, a: Point, b: Point)
    requires a.lat != b.lat
    ensures CrossingLng(lat, a, b) == CrossingLng(lat, b, a)
  {
    var d := b.lat - a.lat;
    var w := b.lng - a.lng;
    var q := (w * (lat - a.lat)) / d;
    assert q * d == w * (lat - a.lat);
    assert (a.lng - b.lng) * (lat - b.lat) == (q - w) * (a.lat - b.lat) by {
      calc {
        (a.lng - b.lng) * (lat - b.lat);
        -w * (lat - a.lat - d);
        -(w * (lat - a.lat)) + w * d;
        -(q * d) + w * d;
        (q - w) * -d;
      }
    }
    Quotient((a.lng - b.lng) * (lat - b.lat), a.lat - b.lat, q - w);
  }

  lemma CrossesSymmetric(p: Point, a: Point, b: Point)
    ensures Crosses(p, a, b) == Crosses(p, b, a)
  {
    if a.lat != b.lat {
      CrossingSymmetric(p.lat, a, b);
    }
  }

  /** A crossing lies between the ends of its edge. */
  lemma CrossingBetween(lat: real, a: Point, b: Point, west: real, east: real)
    requires a.lat <= lat <= b.lat && a.lat < b.lat
    requires west <= a.lng <= east && west <= b.lng <= east
    ensures west <= CrossingLng(lat, a, b) <= east
  {
    var t := (lat - a.lat) / (b.lat - a.lat);
    Fraction(lat - a.lat, b.lat - a.lat);
    Scaled(b.lng - a.lng, lat - a.lat, t, b.lat - a.lat);
    CrossingAt(lat, a, b, (b.lng - a.lng) * t);
    Between(a.lng, b.lng - a.lng, t, west, east);
  }

  lemma CrossingAt(lat: real, a: Point, b: Point, q: real)
    requires a.lat != b.lat && (b.lng - a.lng) * (lat - a.lat) == q * (b.lat - a.lat)
    ensures CrossingLng(lat, a, b) == q + a.lng
  {
    Quotient((b.lng - a.lng) * (lat - a.lat), b.lat - a.lat, q);
  }

  lemma Scaled(w: real, n: real, t: real, d: real)
    requires n == t * d
    ensures w * n == (w * t) * d
  {
    assert w * (t * d) == (w * t) * d;
  }

  lemma Fraction(n: real, d: real)
    requires 0.0 <= n <= d && d > 0.0
    ensures 0.0 <= n / d <= 1.0 && n == (n / d) * d
  {
  }

  lemma Between(x: real, w: real, t: real, west: real, east: real)
    requires 0.0 <= t <= 1.0 && west <= x <= east && west <= x + w <= east
    ensures west <= w * t + x <= east
  {
    if w >= 0.0 {
      NonNegative(w, t);
      NonNegative(w, 1.0 - t);
    } else {
      NonNegative(-w, t);
      NonNegative(-w, 1.0 - t);
    }
    assert w * (1.0 - t) == w - w * t;
  }

  lemma NonNegative(x: real, y: real)
    requires x >= 0.0 && y >= 0.0
    ensures x * y >= 0.0
  {
  }

  // ----- paths -----

  lemma {:induction false} OddSnoc(p: Point, path: seq<Point>, x: Point)
    requires path != []
    ensures Odd(p, path + [x]) == (Odd(p, path) != Crosses(p, x, path[|path| - 1]))
  {
    if |path| > 1 {
      assert (path + [x])[1..] == path[1..] + [x];
      OddSnoc(p, path[1..], x);
    }
  }

  /** Paths that meet in a point add up. */
  lemma {:induction false} OddJoin(p: Point, left: seq<Point>, right: seq<Point>)
    requires left != [] && right != [] && left[|left| - 1] == right[0]
    ensures Odd(p, left + right[1..]) == (Odd(p, left) != Odd(p, right))
  {
    if |left| == 1 {
      assert left + right[1..] == right;
    } else {
      assert (left + right[1..])[1..] == left[1..] + right[1..];
      OddJoin(p, left[1..], right);
    }
  }

  function Reversed(s: seq<Point>): (r: seq<Point>)
    ensures |r| == |s|
  {
    if s == [] then [] else Reversed(s[1..]) + [s[0]]
  }

  lemma {:induction false} OddReversed(p: Point, path: seq<Point>)
    ensures Odd(p, Reversed(path)) == Odd(p, path)
    ensures path != [] ==> Reversed(path)[|path| - 1] == path[0]
  {
    if |path| >= 2 {
      OddReversed(p, path[1..]);
      OddSnoc(p, Reversed(path[1..]), path[0]);
      CrossesSymmetric(p, path[0], path[1]);
    } else if |path| == 1 {
      assert Reversed(path) == [path[0]];
    }
  }

  lemma {:induction false} ReversedAppend(a: seq<Point>, b: seq<Point>)
    ensures Reversed(a + b) == Reversed(b) + Reversed(a)
  {
    if a == [] {
      assert a + b == b;
    } else {
      assert (a + b)[1..] == a[1..] + b;
      ReversedAppend(a[1..], b);
    }
  }

  // ----- the answer does not depend on how the ring is listed -----

  /** Inside in terms of the open path through the vertices. */
  lemma InsideOpen(p: Point, vertices: seq<Point>)
    requires vertices != []
    ensures Inside(p, vertices) == (Odd(p, vertices) != Crosses(p, vertices[0], vertices[|vertices| - 1]))
  {
    OddSnoc(p, vertices, vertices[0]);
  }

  lemma OddConcat(p: Point, left: seq<Point>, right: seq<Point>)
    requires left != [] && right != []
    ensures Odd(p, left + right) == ((Odd(p, left) != Odd(p, right)) != Crosses(p, right[0], left[|left| - 1]))
  {
    var joined := left + [right[0]];
    OddSnoc(p, left, right[0]);
    OddJoin(p, joined, right);
    assert joined + right[1..] == left + right;
  }

  /** Starting the ring at another vertex changes nothing. */
  lemma RotationInvariant(p: Point, left: seq<Point>, right: seq<Point>)
    ensures Inside(p, left + right) == Inside(p, right + left)
  {
    if left == [] || right == [] {
      assert left + right == right + left;
    } else {
      OddConcat(p, left, right);
      OddConcat(p, right, left);
      InsideOpen(p, left + right);
      InsideOpen(p, right + left);
      CrossesSymmetric(p, left[0], right[|right| - 1]);
    }
  }

  /** Walking the ring the other way changes nothing. */
  lemma ReversalInvariant(p: Point, vertices: seq<Point>)
    ensures Inside(p, Reversed(vertices)) == Inside(p, vertices)
  {
    if vertices != [] {
      OddReversed(p, vertices);
      InsideOpen(p, vertices);
      InsideOpen(p, Reversed(vertices));
      var last := vertices[|vertices| - 1];
      assert vertices == vertices[..|vertices| - 1] + [last];
      ReversedAppend(vertices[..|vertices| - 1], [last]);
      assert Reversed([last]) == [last];
      assert Reversed(vertices)[0] == last;
      CrossesSymmetric(p, vertices[0], last);
    }
  }

  /** A chord between vertices i and j splits the ring in two: a point is inside the whole
      exactly when it is inside one of the parts and not the other. */
  lemma ChordSplits(p: Point, vertices: seq<Point>, i: nat, j: nat)
    requires i < j < |vertices|
    ensures Inside(p, vertices) ==
            (Inside(p, vertices[i..j + 1]) != Inside(p, vertices[j..] + vertices[..i + 1]))
  {
    var before, part, after := vertices[..i + 1], vertices[i..j + 1], vertices[j..];
    assert before + part[1..] == vertices[..j + 1];
    OddJoin(p, before, part);
    assert vertices[..j + 1] + after[1..] == vertices;
    OddJoin(p, vertices[..j + 1], after);
    InsideOpen(p, vertices);
    InsideOpen(p, part);
    OddConcat(p, after, before);
    InsideOpen(p, after + before);
    CrossesSymmetric(p, vertices[i], vertices[j]);
  }

  // ----- which side of an edge -----

  /** Twice the signed area of the triangle a, b, p: positive where p lies to the left of the edge from a to b. */
  function Side(a: Point, b: Point, p: Point): real {
    (b.lng - a.lng) * (p.lat - a.lat) - (b.lat - a.lat) * (p.lng - a.lng)
  }

  lemma Divided(n: real, d: real, x: real)
    requires d > 0.0
    ensures x < n / d <==> x * d < n
  {
    var q := n / d;
    assert n == q * d;
    if x < q {
      Positive(q - x, d);
    } else {
      NonNegative(x - q, d);
    }
    assert (q - x) * d == q * d - x * d;
    assert (x - q) * d == x * d - q * d;
  }

  lemma Positive(x: real, y: real)
    requires x > 0.0 && y > 0.0
    ensures x * y > 0.0
  {
  }

  lemma SideIsAntisymmetric(a: Point, b: Point, p: Point)
    ensures Side(a, b, p) == -Side(b, a, p)
  {
    var x, y, u, v := b.lng - a.lng, b.lat - a.lat, p.lng - a.lng, p.lat - a.lat;
    assert p.lng - b.lng == u - x && p.lat - b.lat == v - y;
    assert (-x) * (v - y) - (-y) * (u - x) == -(x * v - y * u);
  }

  /** The ray crosses an edge that rises past p exactly when p lies to its left, and one that falls
      exactly when p lies to its right. */
  lemma CrossesMeans(p: Point, a: Point, b: Point)
    ensures Crosses(p, a, b) <==>
            || (a.lat <= p.lat < b.lat && Side(a, b, p) > 0.0)
            || (b.lat <= p.lat < a.lat && Side(a, b, p) < 0.0)
  {
    if a.lat <= p.lat < b.lat {
      RisingCrosses(p, a, b);
    } else if b.lat <= p.lat < a.lat {
      RisingCrosses(p, b, a);
      CrossesSymmetric(p, a, b);
      SideIsAntisymmetric(a, b, p);
    }
  }

  lemma RisingCrosses(p: Point, a: Point, b: Point)
    requires a.lat <= p.lat < b.lat
    ensures Crosses(p, a, b) <==> Side(a, b, p) > 0.0
  {
    Divided((b.lng - a.lng) * (p.lat - a.lat), b.lat - a.lat, p.lng - a.lng);
    assert (p.lng - a.lng) * (b.lat - a.lat) == (b.lat - a.lat) * (p.lng - a.lng);
  }

  // ----- triangles -----

  lemma TriangleCrossings(p: Point, a: Point, b: Point, c: Point)
    ensures Inside(p, [a, b, c]) == (Crosses(p, a, b) != (Crosses(p, b, c) != Crosses(p, c, a)))
  {
    assert [c, a][1..] == [a] && [b, c, a][1..] == [c, a] && [a, b, c, a][1..] == [b, c, a];
    assert !Odd(p, [a]);
    assert Odd(p, [c, a]) == Crosses(p, a, c);
    assert Odd(p, [b, c, a]) == (Crosses(p, c, b) != Odd(p, [c, a]));
    assert [a, b, c] + [a] == [a, b, c, a];
    CrossesSymmetric(p, b, a);
    CrossesSymmetric(p, c, b);
    CrossesSymmetric(p, a, c);
  }

  /** The three areas add up to that of the triangle, and weigh its corners so as to balance in p. */
  lemma Balance(p: Point, a: Point, b: Point, c: Point)
    ensures Side(a, b, p) + Side(b, c, p) + Side(c, a, p) == Side(a, b, c)
    ensures Side(b, c, p) * (a.lat - p.lat) + Side(c, a, p) * (b.lat - p.lat) + Side(a, b, p) * (c.lat - p.lat) == 0.0
  {
    var ax, ay, bx, by', cx, cy := a.lng - p.lng, a.lat - p.lat, b.lng - p.lng, b.lat - p.lat, c.lng - p.lng, c.lat - p.lat;
    FromOrigin(p, a, b);
    FromOrigin(p, b, c);
    FromOrigin(p, c, a);
    Determinants(ax, ay, bx, by', cx, cy);
    AreaFromOrigin(p, a, b, c);
  }

  lemma FromOrigin(p: Point, a: Point, b: Point)
    ensures Side(a, b, p) == (a.lng - p.lng) * (b.lat - p.lat) - (a.lat - p.lat) * (b.lng - p.lng)
  {
    var ax, ay, bx, by' := a.lng - p.lng, a.lat - p.lat, b.lng - p.lng, b.lat - p.lat;
    assert b.lng - a.lng == bx - ax && b.lat - a.lat == by' - ay;
    assert (bx - ax) * (-ay) - (by' - ay) * (-ax) == ax * by' - ay * bx;
  }

  lemma AreaFromOrigin(p: Point, a: Point, b: Point, c: Point)
    ensures Side(a, b, c) == Side(a, b, p) + Side(b, c, p) + Side(c, a, p)
  {
    var ax, ay, bx, by', cx, cy := a.lng - p.lng, a.lat - p.lat, b.lng - p.lng, b.lat - p.lat, c.lng - p.lng, c.lat - p.lat;
    FromOrigin(p, a, b);
    FromOrigin(p, b, c);
    FromOrigin(p, c, a);
    assert Side(a, b, c) == (bx - ax) * (cy - ay) - (by' - ay) * (cx - ax);
    assert (bx - ax) * (cy - ay) - (by' - ay) * (cx - ax)
        == (ax * by' - ay * bx) + (bx * cy - by' * cx) + (cx * ay - cy * ax);
  }

  lemma Determinants(ax: real, ay: real, bx: real, by': real, cx: real, cy: real)
    ensures (bx * cy - by' * cx) * ay + (cx * ay - cy * ax) * by' + (ax * by' - ay * bx) * cy == 0.0
  {
    assert (bx * cy - by' * cx) * ay == bx * cy * ay - by' * cx * ay;
    assert (cx * ay - cy * ax) * by' == cx * ay * by' - cy * ax * by';
    assert (ax * by' - ay * bx) * cy == ax * by' * cy - ay * bx * cy;
  }

  /** Strictly to the left of all three edges. */
  predicate LeftOfAll(p: Point, a: Point, b: Point, c: Point) {
    Side(a, b, p) > 0.0 && Side(b, c, p) > 0.0 && Side(c, a, p) > 0.0
  }

  /** Strictly to the right of some edge. */
  predicate RightOfSome(p: Point, a: Point, b: Point, c: Point) {
    Side(a, b, p) < 0.0 || Side(b, c, p) < 0.0 || Side(c, a, p) < 0.0
  }

  /** An edge whose ends lie this far above p, with p to its left when the side is positive, is crossed. */
  predicate CrossedAt(start: real, end: real, side: real) {
    (start <= 0.0 < end && side > 0.0) || (end <= 0.0 < start && side < 0.0)
  }

  lemma CrossesAt(p: Point, a: Point, b: Point)
    ensures Crosses(p, a, b) <==> CrossedAt(a.lat - p.lat, b.lat - p.lat, Side(a, b, p))
    ensures a.lat == b.lat == p.lat ==> Side(a, b, p) == 0.0
  {
    CrossesMeans(p, a, b);
  }

  lemma Signs(x: real, y: real)
    ensures x > 0.0 && y > 0.0 ==> x * y > 0.0
    ensures x > 0.0 && y < 0.0 ==> x * y < 0.0
    ensures x < 0.0 && y > 0.0 ==> x * y < 0.0
    ensures x < 0.0 && y < 0.0 ==> x * y > 0.0
    ensures x == 0.0 || y == 0.0 ==> x * y == 0.0
  {
  }

  /** Weights that balance three heights, products first. */
  lemma Weighed(x: real, y: real, z: real, u: real, v: real, w: real)
    requires u * x + v * y + w * z == 0.0
    ensures u > 0.0 && v > 0.0 && w > 0.0 ==> (x > 0.0 || y > 0.0 || z > 0.0 || x == y == z == 0.0)
    ensures u > 0.0 && v > 0.0 && w > 0.0 ==> (x <= 0.0 || y <= 0.0 || z <= 0.0)
    ensures u < 0.0 && v >= 0.0 && w >= 0.0 && x > 0.0 && y <= 0.0 && z <= 0.0 ==> false
    ensures u <= 0.0 && v >= 0.0 && w >= 0.0 && x <= 0.0 && y > 0.0 && z > 0.0 ==> v == 0.0 && w == 0.0
  {
    Signs(u, x);
    Signs(v, y);
    Signs(w, z);
  }

  lemma AllLeftParity(x: real, y: real, z: real, xy: real, yz: real, zx: real)
    requires yz * x + zx * y + xy * z == 0.0 && xy > 0.0 && yz > 0.0 && zx > 0.0
    requires x == y == 0.0 ==> xy == 0.0
    ensures CrossedAt(x, y, xy) != (CrossedAt(y, z, yz) != CrossedAt(z, x, zx))
  {
    Weighed(x, y, z, yz, zx, xy);
  }

  /** A point to the left of all edges of a triangle is inside. */
  lemma LeftOfAllIsInside(p: Point, a: Point, b: Point, c: Point)
    requires LeftOfAll(p, a, b, c)
    ensures Inside(p, [a, b, c])
  {
    TriangleCrossings(p, a, b, c);
    CrossesAt(p, a, b);
    CrossesAt(p, b, c);
    CrossesAt(p, c, a);
    Balance(p, a, b, c);
    AllLeftParity(a.lat - p.lat, b.lat - p.lat, c.lat - p.lat, Side(a, b, p), Side(b, c, p), Side(c, a, p));
  }

  /** Corner x stands alone on its side of the level. */
  lemma OneCornerParity(x: real, y: real, z: real, xy: real, yz: real, zx: real)
    requires yz * x + zx * y + xy * z == 0.0 && xy + yz + zx >= 0.0
    requires (x > 0.0) != (y > 0.0) && (y > 0.0) == (z > 0.0)
    requires xy < 0.0 || yz < 0.0 || zx < 0.0 || xy + yz + zx == 0.0
    ensures CrossedAt(x, y, xy) == CrossedAt(z, x, zx)
  {
    Weighed(x, y, z, yz, zx, xy);
    Signs(yz, x);
    Signs(zx, y);
    Signs(xy, z);
  }

  /** A point to the right of some edge of a triangle that runs counter-clockwise, or of one without area, is outside. */
  lemma RightOfSomeIsOutside(p: Point, a: Point, b: Point, c: Point)
    requires Side(a, b, c) >= 0.0 && (RightOfSome(p, a, b, c) || Side(a, b, c) == 0.0)
    ensures !Inside(p, [a, b, c])
  {
    TriangleCrossings(p, a, b, c);
    CrossesAt(p, a, b);
    CrossesAt(p, b, c);
    CrossesAt(p, c, a);
    Balance(p, a, b, c);
    SomeRightParity(a.lat - p.lat, b.lat - p.lat, c.lat - p.lat, Side(a, b, p), Side(b, c, p), Side(c, a, p));
  }

  lemma SomeRightParity(x: real, y: real, z: real, xy: real, yz: real, zx: real)
    requires yz * x + zx * y + xy * z == 0.0 && xy + yz + zx >= 0.0
    requires xy < 0.0 || yz < 0.0 || zx < 0.0 || xy + yz + zx == 0.0
    ensures !(CrossedAt(x, y, xy) != (CrossedAt(y, z, yz) != CrossedAt(z, x, zx)))
  {
    if (x > 0.0) != (y > 0.0) && (y > 0.0) == (z > 0.0) {
      OneCornerParity(x, y, z, xy, yz, zx);
    } else if (y > 0.0) != (z > 0.0) && (z > 0.0) == (x > 0.0) {
      OneCornerParity(y, z, x, yz, zx, xy);
    } else if (z > 0.0) != (x > 0.0) && (x > 0.0) == (y > 0.0) {
      OneCornerParity(z, x, y, zx, xy, yz);
    }
  }

  /** On one and the same strict side of all edges. */
  predicate StrictlyInside(p: Point, a: Point, b: Point, c: Point) {
    LeftOfAll(p, a, b, c) || LeftOfAll(p, c, b, a)
  }

  /** On the outer strict side of some edge; everything is outside a triangle without area. */
  predicate StrictlyOutside(p: Point, a: Point, b: Point, c: Point) {
    || Side(a, b, c) == 0.0
    || (Side(a, b, c) > 0.0 && RightOfSome(p, a, b, c))
    || (Side(a, b, c) < 0.0 && RightOfSome(p, c, b, a))
  }

  /** The answer for a triangle, off the lines through its edges, is that of the three sides. */
  lemma TriangleContains(p: Point, a: Point, b: Point, c: Point)
    ensures StrictlyInside(p, a, b, c) ==> Inside(p, [a, b, c])
    ensures StrictlyOutside(p, a, b, c) ==> !Inside(p, [a, b, c])
    ensures Side(a, b, p) != 0.0 && Side(b, c, p) != 0.0 && Side(c, a, p) != 0.0 ==>
              (StrictlyInside(p, a, b, c) <==> !StrictlyOutside(p, a, b, c))
  {
    OtherWay(p, a, b, c);
    AreaFromOrigin(p, a, b, c);
    AreaFromOrigin(p, c, b, a);
    if LeftOfAll(p, a, b, c) {
      LeftOfAllIsInside(p, a, b, c);
    }
    if LeftOfAll(p, c, b, a) {
      LeftOfAllIsInside(p, c, b, a);
    }
    if StrictlyOutside(p, a, b, c) {
      if Side(a, b, c) >= 0.0 {
        RightOfSomeIsOutside(p, a, b, c);
      } else {
        RightOfSomeIsOutside(p, c, b, a);
      }
    }
  }

  lemma OtherWay(p: Point, a: Point, b: Point, c: Point)
    ensures Inside(p, [c, b, a]) == Inside(p, [a, b, c])
    ensures Side(a, b, p) == -Side(b, a, p) && Side(b, c, p) == -Side(c, b, p) && Side(c, a, p) == -Side(a, c, p)
  {
    TriangleCrossings(p, a, b, c);
    TriangleCrossings(p, c, b, a);
    CrossesSymmetric(p, a, b);
    CrossesSymmetric(p, b, c);
    CrossesSymmetric(p, c, a);
    SideIsAntisymmetric(a, b, p);
    SideIsAntisymmetric(b, c, p);
    SideIsAntisymmetric(c, a, p);
  }

  // ----- polygons as fans of triangles -----

  /** Whether p lies strictly inside an odd number of the triangles that the first vertex spans with
      each edge, told by sides alone. */
  predicate OddFan(p: Point, vertices: seq<Point>) {
    |vertices| >= 3 &&
    StrictlyInside(p, vertices[0], vertices[|vertices| - 2], vertices[|vertices| - 1]) != OddFan(p, vertices[..|vertices| - 1])
  }

  /** p lies on no line through an edge of the fan. */
  predicate OffLines(p: Point, vertices: seq<Point>) {
    forall k | 0 < k < |vertices| :: Side(vertices[0], vertices[k], p) != 0.0 && (k > 1 ==> Side(vertices[k - 1], vertices[k], p) != 0.0)
  }

  /** For every polygon, crossing itself or not: the answer is that of its fan. */
  lemma {:induction false} InsideIsOddFan(p: Point, vertices: seq<Point>)
    requires OffLines(p, vertices)
    ensures Inside(p, vertices) == OddFan(p, vertices)
    decreases |vertices|
  {
    var n := |vertices|;
    if n >= 3 {
      var a, b, c := vertices[0], vertices[n - 2], vertices[n - 1];
      InsideIsOddFan(p, vertices[..n - 1]);
      FanStep(p, vertices);
      SideIsAntisymmetric(a, c, p);
      TriangleContains(p, a, b, c);
    } else if n == 2 {
      TwoVertices(p, vertices[0], vertices[1]);
      assert vertices == [vertices[0], vertices[1]];
    } else if n == 1 {
      OneVertex(p, vertices[0]);
      assert vertices == [vertices[0]];
    }
  }

  lemma FanStep(p: Point, vertices: seq<Point>)
    requires |vertices| >= 3
    ensures var n := |vertices|;
            Inside(p, vertices) == (Inside(p, vertices[..n - 1]) != Inside(p, [vertices[0], vertices[n - 2], vertices[n - 1]]))
  {
    var n := |vertices|;
    ChordSplits(p, vertices, 0, n - 2);
    assert vertices[0..n - 1] == vertices[..n - 1];
    assert vertices[n - 2..] + vertices[..1] == [vertices[n - 2], vertices[n - 1]] + [vertices[0]];
    RotationInvariant(p, [vertices[n - 2], vertices[n - 1]], [vertices[0]]);
    assert [vertices[0]] + [vertices[n - 2], vertices[n - 1]] == [vertices[0], vertices[n - 2], vertices[n - 1]];
  }

  lemma TwoVertices(p: Point, a: Point, b: Point)
    ensures !Inside(p, [a, b])
  {
    assert [a, b] + [a] == [a, b, a];
    assert [b, a][1..] == [a] && [a, b, a][1..] == [b, a];
    assert Odd(p, [b, a]) == Crosses(p, a, b);
    CrossesSymmetric(p, a, b);
  }

  lemma OneVertex(p: Point, a: Point)
    ensures !Inside(p, [a])
  {
    assert [a] + [a] == [a, a];
    assert [a, a][1..] == [a] && !Odd(p, [a]);
    assert !Crosses(p, a, a);
  }

  // ----- where the answer is known -----

  predicate Within(q: Point, west: real, south: real, east: real, north: real) {
    west <= q.lng <= east && south <= q.lat <= north
  }

  lemma {:induction false} NoCrossing(p: Point, path: seq<Point>, west: real, south: real, east: real, north: real)
    requires forall k | 0 <= k < |path| :: Within(path[k], west, south, east, north)
    requires p.lat < south || p.lat >= north || p.lng >= east
    ensures !Odd(p, path)
  {
    if |path| >= 2 {
      var a, b := path[1], path[0];
      if a.lat > p.lat && b.lat <= p.lat {
        CrossingSymmetric(p.lat, a, b);
        CrossingBetween(p.lat, b, a, west, east);
      } else if b.lat > p.lat && a.lat <= p.lat {
        CrossingBetween(p.lat, a, b, west, east);
      }
      NoCrossing(p, path[1..], west, south, east, north);
    }
  }

  /** From the west of a path the ray crosses every edge that changes sides. */
  lemma {:induction false} ChangesSides(p: Point, path: seq<Point>, west: real, south: real, east: real, north: real)
    requires path != [] && forall k | 0 <= k < |path| :: Within(path[k], west, south, east, north)
    requires p.lng < west
    ensures Odd(p, path) == ((path[0].lat > p.lat) != (path[|path| - 1].lat > p.lat))
  {
    if |path| >= 2 {
      var a, b := path[1], path[0];
      if a.lat > p.lat && b.lat <= p.lat {
        CrossingSymmetric(p.lat, a, b);
        CrossingBetween(p.lat, b, a, west, east);
      } else if b.lat > p.lat && a.lat <= p.lat {
        CrossingBetween(p.lat, a, b, west, east);
      }
      ChangesSides(p, path[1..], west, south, east, north);
    }
  }

  /** A point outside the bounding box of a ring is outside the ring. */
  lemma OutsideBoundingBox(p: Point, vertices: seq<Point>, west: real, south: real, east: real, north: real)
    requires forall k | 0 <= k < |vertices| :: Within(vertices[k], west, south, east, north)
    requires !Within(p, west, south, east, north)
    ensures !Inside(p, vertices)
  {
    if vertices != [] {
      var path := vertices + [vertices[0]];
      if p.lng < west {
        ChangesSides(p, path, west, south, east, north);
      } else {
        NoCrossing(p, path, west, south, east, north);
      }
    }
  }

  /** In a rectangle the answer is the half-open containment test. */
  lemma RectangleContains(p: Point, west: real, south: real, east: real, north: real)
    requires west < east && south < north
    ensures Inside(p, [Point(west, south), Point(east, south), Point(east, north), Point(west, north)]) <==>
            west <= p.lng < east && south <= p.lat < north
  {
    var sw, se, ne, nw := Point(west, south), Point(east, south), Point(east, north), Point(west, north);
    var path := [sw, se, ne, nw, sw];
    assert [sw, se, ne, nw] + [sw] == path;
    assert path[1..] == [se, ne, nw, sw];
    assert path[1..][1..] == [ne, nw, sw];
    assert path[1..][1..][1..] == [nw, sw];
    assert path[1..][1..][1..][1..] == [sw];
    VerticalCrossing(p, ne, se);
    VerticalCrossing(p, sw, nw);
    assert !Crosses(p, se, sw) && !Crosses(p, nw, ne);
    assert !Odd(p, [sw]);
    assert Odd(p, [nw, sw]) == Crosses(p, sw, nw);
    assert Odd(p, [ne, nw, sw]) == Odd(p, [nw, sw]);
    assert Odd(p, [se, ne, nw, sw]) == (Crosses(p, ne, se) != Odd(p, [ne, nw, sw]));
    assert Odd(p, path) == Odd(p, [se, ne, nw, sw]);
    assert Odd(p, path) == (Crosses(p, ne, se) != Crosses(p, sw, nw));
  }

  lemma VerticalCrossing(p: Point, a: Point, b: Point)
    requires a.lng == b.lng && a.lat != b.lat
    ensures Crosses(p, a, b) <==> (a.lat > p.lat) != (b.lat > p.lat) && p.lng < a.lng
  {
    Quotient((b.lng - a.lng) * (p.lat - a.lat), b.lat - a.lat, 0.0);
  }

  // ----- polygons -----

  /** A polygon is an exterior ring and its holes; a point counts when it is in the exterior
      ring of some polygon and in none of that polygon's holes. */
  predicate InPolygons(p: Point, polygons: seq<seq<seq<Point>>>) {
    exists k | 0 <= k < |polygons| ::
      && polygons[k] != [] && Inside(p, Vertices(polygons[k][0]))
      && !exists h | 1 <= h < |polygons[k]| :: Inside(p, Vertices(polygons[k][h]))
  }

  method ClassifyPoint(polygons: seq<seq<seq<Point>>>, p: Point) returns (inside: bool)
    requires forall k | 0 <= k < |polygons| :: polygons[k] != []
    ensures inside == InPolygons(p, polygons)
  {
    for k := 0 to |polygons|
      invariant !InPolygons(p, polygons[..k])
    {
      assert polygons[..k + 1] == polygons[..k] + [polygons[k]];
      var exterior := InRing(p, polygons[k][0]);
      var inHole := false;
      for h := 1 to |polygons[k]|
        invariant inHole == exists g | 1 <= g < h :: Inside(p, Vertices(polygons[k][g]))
      {
        var hole := InRing(p, polygons[k][h]);
        inHole := inHole || hole;
      }
      if exterior && !inHole {
        return true;
      }
    }
    assert polygons[..|polygons|] == polygons;
    return false;
  }

  // ----- distance to the boundary -----

  /** The squared distance from p to the point of the edge from a to b at t, where 0 is a and 1 is b. */
  function SquaredDistance(p: Point, a: Point, b: Point, t: real): real {
    (p.lng - (a.lng + t * (b.lng - a.lng))) * (p.lng - (a.lng + t * (b.lng - a.lng))) +
    (p.lat - (a.lat + t * (b.lat - a.lat))) * (p.lat - (a.lat + t * (b.lat - a.lat)))
  }

  function Clamp(t: real): real {
    if t < 0.0 then 0.0 else if t > 1.0 then 1.0 else t
  }

  function LengthSquared(a: Point, b: Point): real {
    (b.lng - a.lng) * (b.lng - a.lng) + (b.lat - a.lat) * (b.lat - a.lat)
  }

  /** The scalar product of p - a and b - a. */
  function Along(p: Point, a: Point, b: Point): real {
    (p.lng - a.lng) * (b.lng - a.lng) + (p.lat - a.lat) * (b.lat - a.lat)
  }

  /** The clamped projection of p onto the edge. */
  function Projection(p: Point, a: Point, b: Point): real {
    if LengthSquared(a, b) == 0.0 then 0.0 else Clamp(Along(p, a, b) / LengthSquared(a, b))
  }

  /** The squared distance is a quadratic in t. */
  lemma DistanceIsQuadratic(p: Point, a: Point, b: Point, t: real)
    ensures SquaredDistance(p, a, b, t) == FromStart(p, a) - 2.0 * (t * Along(p, a, b)) + t * (t * LengthSquared(a, b))
  {
    AxisIsQuadratic(p.lng, a.lng, b.lng, t);
    AxisIsQuadratic(p.lat, a.lat, b.lat, t);
    SumOfAxes(t, (p.lng - a.lng) * (b.lng - a.lng), (p.lat - a.lat) * (b.lat - a.lat),
              (b.lng - a.lng) * (b.lng - a.lng), (b.lat - a.lat) * (b.lat - a.lat));
  }

  function FromStart(p: Point, a: Point): real {
    (p.lng - a.lng) * (p.lng - a.lng) + (p.lat - a.lat) * (p.lat - a.lat)
  }

  lemma AxisIsQuadratic(p: real, a: real, b: real, t: real)
    ensures (p - (a + t * (b - a))) * (p - (a + t * (b - a))) ==
            (p - a) * (p - a) - 2.0 * (t * ((p - a) * (b - a))) + t * (t * ((b - a) * (b - a)))
  {
    var u, x := p - a, t * (b - a);
    assert p - (a + x) == u - x;
    assert (u - x) * (u - x) == u * u - 2.0 * (u * x) + x * x;
    assert u * x == t * (u * (b - a));
    assert x * x == t * (t * ((b - a) * (b - a)));
  }

  lemma SumOfAxes(t: real, m: real, n: real, x: real, y: real)
    ensures t * m + t * n == t * (m + n) && t * (t * x) + t * (t * y) == t * (t * (x + y))
  {
    assert t * x + t * y == t * (x + y);
  }

  /** Moving the foot away from the clamped quotient q / l never helps. */
  lemma ClampIsBest(l: real, q: real, s: real, t: real)
    requires 0.0 <= t <= 1.0 && l > 0.0 && s == Clamp(q / l)
    ensures (t - s) * (s * l - q) >= 0.0
  {
    var r := q / l;
    assert r * l == q;
    assert s * l - q == (s - r) * l by {
      assert (s - r) * l == s * l - r * l;
    }
    if r < 0.0 {
      NonNegative(s - r, l);
      NonNegative(t - s, (s - r) * l);
    } else if r > 1.0 {
      NonNegative(r - s, l);
      NonNegative(s - t, (r - s) * l);
      assert (r - s) * l == -((s - r) * l);
      assert (t - s) * ((s - r) * l) == (s - t) * ((r - s) * l);
    }
  }

  /** The quadratic is least at the clamped quotient. */
  lemma ClampIsLeast(u: real, l: real, q: real, s: real, t: real)
    requires 0.0 <= t <= 1.0 && l > 0.0 && s == Clamp(q / l)
    ensures u - 2.0 * (s * q) + s * (s * l) <= u - 2.0 * (t * q) + t * (t * l)
  {
    ClampIsBest(l, q, s, t);
    var e := t - s;
    SameSign(e, e);
    NonNegative(e * e, l);
    assert t * q == s * q + e * q;
    assert t * (t * l) == s * (s * l) + 2.0 * (e * (s * l)) + e * e * l;
    assert e * (s * l - q) == e * (s * l) - e * q;
  }

  lemma NoLength(a: Point, b: Point)
    requires LengthSquared(a, b) <= 0.0
    ensures a == b
  {
    NoSquares(b.lng - a.lng, b.lng - a.lng, b.lat - a.lat, b.lat - a.lat);
  }

  lemma NoSquares(x: real, x': real, y: real, y': real)
    requires x == x' && y == y' && x * x' + y * y' <= 0.0
    ensures x == 0.0 == y
  {
    SameSign(x, x');
    SameSign(y, y');
  }

  lemma SameSign(x: real, y: real)
    requires (x >= 0.0 && y >= 0.0) || (x <= 0.0 && y <= 0.0)
    ensures x * y >= 0.0
    ensures x != 0.0 && y != 0.0 ==> x * y > 0.0
  {
  }

  lemma OnePoint(p: Point, a: Point, s: real, t: real)
    ensures SquaredDistance(p, a, a, s) == SquaredDistance(p, a, a, t)
  {
  }

  /** No point of the edge is nearer than the clamped projection. */
  lemma ProjectionIsNearest(p: Point, a: Point, b: Point, t: real)
    requires 0.0 <= t <= 1.0
    ensures 0.0 <= Projection(p, a, b) <= 1.0
    ensures SquaredDistance(p, a, b, Projection(p, a, b)) <= SquaredDistance(p, a, b, t)
  {
    var s := Projection(p, a, b);
    if LengthSquared(a, b) <= 0.0 {
      NoLength(a, b);
      OnePoint(p, a, s, t);
    } else {
      DistanceIsQuadratic(p, a, b, s);
      DistanceIsQuadratic(p, a, b, t);
      ClampIsLeast(FromStart(p, a), LengthSquared(a, b), Along(p, a, b), s, t);
    }
  }

  datatype Edge = Edge(a: Point, b: Point)

  /** The edges of a ring, as consecutive positions. */
  function RingEdges(ring: seq<Point>): seq<Edge> {
    if |ring| < 2 then [] else RingEdges(ring[..|ring| - 1]) + [Edge(ring[|ring| - 2], ring[|ring| - 1])]
  }

  function Edges(rings: seq<seq<Point>>): seq<Edge> {
    if rings == [] then [] else Edges(rings[..|rings| - 1]) + RingEdges(rings[|rings| - 1])
  }

  /** The squared distance to the nearest of all points of all edges; none without edges. */
  ghost predicate Nearest(p: Point, edges: seq<Edge>, best: Option<real>) {
    && (best.None? <==> edges == [])
    && (best.Some? ==>
          && (exists e, t :: e in edges && 0.0 <= t <= 1.0 && best.value == SquaredDistance(p, e.a, e.b, t))
          && (forall e, t :: e in edges && 0.0 <= t <= 1.0 ==> best.value <= SquaredDistance(p, e.a, e.b, t)))
  }

  lemma NearestMore(p: Point, edges: seq<Edge>, best: Option<real>, e: Edge)
    requires Nearest(p, edges, best)
    ensures var d := SquaredDistance(p, e.a, e.b, Projection(p, e.a, e.b));
            Nearest(p, edges + [e], Some(if best.None? || d < best.value then d else best.value))
  {
    var d := SquaredDistance(p, e.a, e.b, Projection(p, e.a, e.b));
    var best' := if best.None? || d < best.value then d else best.value;
    ProjectionIsNearest(p, e.a, e.b, 0.0);
    forall f, t | f in edges + [e] && 0.0 <= t <= 1.0 ensures best' <= SquaredDistance(p, f.a, f.b, t) {
      if f in edges {
      } else {
        ProjectionIsNearest(p, e.a, e.b, t);
      }
    }
    if best.None? || d < best.value {
      assert e in edges + [e];
    } else {
      var f, t :| f in edges && 0.0 <= t <= 1.0 && best.value == SquaredDistance(p, f.a, f.b, t);
      assert f in edges + [e];
    }
  }

  lemma NearestStep(p: Point, before: seq<Edge>, ring: seq<Point>, i: nat, best: Option<real>)
    requires i + 1 < |ring| && Nearest(p, before + RingEdges(ring[..i + 1]), best)
    ensures var d := SquaredDistance(p, ring[i], ring[i + 1], Projection(p, ring[i], ring[i + 1]));
            Nearest(p, before + RingEdges(ring[..i + 2]), Some(if best.None? || d < best.value then d else best.value))
  {
    var edges, edge := before + RingEdges(ring[..i + 1]), Edge(ring[i], ring[i + 1]);
    NearestMore(p, edges, best, edge);
    assert ring[..i + 2][..i + 1] == ring[..i + 1];
    assert edges + [edge] == before + RingEdges(ring[..i + 2]);
  }

  /** The squared distance from p to the boundary made up of all rings of all polygons. */
  method SquaredDistanceToBoundary(rings: seq<seq<Point>>, p: Point) returns (best: Option<real>)
    ensures Nearest(p, Edges(rings), best)
  {
    best := None;
    for k := 0 to |rings|
      invariant Nearest(p, Edges(rings[..k]), best)
    {
      var ring := rings[k];
      ghost var before := Edges(rings[..k]);
      assert rings[..k + 1][..k] == rings[..k];
      var i := 0;
      assert before + RingEdges(ring[..Smaller(1, |ring|)]) == before;
      while i < |ring| - 1
        invariant 0 <= i <= |ring|
        invariant |ring| >= 1 ==> i <= |ring| - 1
        invariant Nearest(p, before + RingEdges(ring[..Smaller(i + 1, |ring|)]), best)
      {
        var a, b := ring[i], ring[i + 1];
        var d := SquaredDistance(p, a, b, Projection(p, a, b));
        NearestStep(p, before, ring, i, best);
        best := Some(if best.None? || d < best.value then d else best.value);
        i := i + 1;
      }
      assert ring[..Smaller(i + 1, |ring|)] == ring;
    }
    assert rings[..|rings|] == rings;
  }

  function Smaller(x: int, y: int): int { if x < y then x else y }
}
