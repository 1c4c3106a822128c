/**
 * Corner selection and ordering of the document scanner
 * (components/DocumentScanner.js).
 *
 * Between the computer-vision calls the scanner does two things of its own:
 * it keeps the contour of strictly largest area, and, when the polygon
 * approximating that contour has exactly four vertices, it orders them as
 * top-left, top-right, bottom-right, bottom-left and pairs them with the
 * corners of the output image for the perspective warp. Contour areas and the
 * approximated polygon are the results of library calls and come in as values.
 */
module DocumentCorners {
  import opened Wrappers

  datatype Point = Point(x: int, y: int)

  /** The coordinate a sort comparator subtracts. */
  datatype Axis = X | Y

  function Coord(p: Point, axis: Axis): int
  {
    match axis
    case X => p.x
    case Y => p.y
  }

  // ---------------------------------------------------------------------
  // The largest contour
  // ---------------------------------------------------------------------

  /**
   * The loop over `contours`: keeps the index and area of the first contour
   * whose area is strictly larger than every earlier one and than 0.
   */
  method LargestContour(areas: seq<int>) returns (best: Option<nat>, maxArea: int)
    ensures best.None? <==> forall i :: 0 <= i < |areas| ==> areas[i] <= 0
    ensures best.None? ==> maxArea == 0
    ensures best.Some? ==> best.value < |areas| && areas[best.value] == maxArea && maxArea > 0
    ensures forall i :: 0 <= i < |areas| ==> areas[i] <= maxArea
    ensures best.Some? ==> forall i :: 0 <= i < best.value ==> areas[i] < maxArea
  {
    maxArea := 0;
    best := None;
    for i := 0 to |areas|
      invariant best.None? ==> maxArea == 0
      invariant best.Some? ==> best.value < i && areas[best.value] == maxArea && maxArea > 0
      invariant forall j :: 0 <= j < i ==> areas[j] <= maxArea
      invariant best.Some? ==> forall j :: 0 <= j < best.value ==> areas[j] < maxArea
    {
      if areas[i] > maxArea {
        maxArea := areas[i];
        best := Some(i);
      }
    }
  }

  // ---------------------------------------------------------------------
  // Points as flat coordinate lists
  // ---------------------------------------------------------------------

  /** Reads a flat list x0, y0, x1, y1, ... as points; a trailing odd entry is ignored. */
  function PairUp(data: seq<int>): (ps: seq<Point>)
    ensures |ps| == |data| / 2
    ensures forall i :: 0 <= i < |ps| ==> ps[i] == Point(data[2 * i], data[2 * i + 1])
    decreases |data|
  {
    if |data| < 2 then [] else [Point(data[0], data[1])] + PairUp(data[2..])
  }

  /** Writes points as a flat list x0, y0, x1, y1, ..., the layout `matFromArray` receives. */
  function Flatten(ps: seq<Point>): (data: seq<int>)
    ensures |data| == 2 * |ps|
    ensures forall i :: 0 <= i < |ps| ==> data[2 * i] == ps[i].x && data[2 * i + 1] == ps[i].y
  {
    if ps == [] then [] else [ps[0].x, ps[0].y] + Flatten(ps[1..])
  }

  /** Reading back a flattened list gives the points. */
  lemma PairUpFlatten(ps: seq<Point>)
    ensures PairUp(Flatten(ps)) == ps
  {
  }

  /** Flattening the points read from an even-length list gives the list. */
  lemma {:induction false} FlattenPairUp(data: seq<int>)
    requires |data| % 2 == 0
    ensures Flatten(PairUp(data)) == data
    decreases |data|
  {
    if |data| >= 2 {
      FlattenPairUp(data[2..]);
      assert PairUp(data)[1..] == PairUp(data[2..]);
    }
  }

  /** The loop reading vertex i of the polygon as (data[2i], data[2i+1]). */
  method ReadPoints(data: seq<int>) returns (points: seq<Point>)
    requires |data| == 8
    ensures points == PairUp(data)
  {
    points := [];
    for i := 0 to 4
      invariant |points| == i
      invariant forall j :: 0 <= j < i ==> points[j] == Point(data[2 * j], data[2 * j + 1])
    {
      points := points + [Point(data[i * 2], data[i * 2 + 1])];
    }
  }

  // ---------------------------------------------------------------------
  // Stable sorting by one coordinate
  // ---------------------------------------------------------------------

  ghost predicate SortedBy(s: seq<Point>, axis: Axis)
  {
    forall i, j :: 0 <= i < j < |s| ==> Coord(s[i], axis) <= Coord(s[j], axis)
  }

  /** The points of `s` whose coordinate is `k`, in their order in `s`. */
  function WithKey(s: seq<Point>, axis: Axis, k: int): seq<Point>
  {
    if s == [] then []
    else (if Coord(s[0], axis) == k then [s[0]] else []) + WithKey(s[1..], axis, k)
  }

  /**
   * `t` holds, for every coordinate value, the same points in the same order
   * as `s`: what a stable sort (as `Array.prototype.sort` is) keeps.
   */
  ghost predicate SameKeyOrder(s: seq<Point>, t: seq<Point>, axis: Axis)
  {
    forall k :: WithKey(s, axis, k) == WithKey(t, axis, k)
  }

  lemma {:induction false} WithKeyConcat(a: seq<Point>, b: seq<Point>, axis: Axis, k: int)
    ensures WithKey(a + b, axis, k) == WithKey(a, axis, k) + WithKey(b, axis, k)
  {
    if a == [] {
      assert a + b == b;
    } else {
      var head := if Coord(a[0], axis) == k then [a[0]] else [];
      assert (a + b)[0] == a[0] && (a + b)[1..] == a[1..] + b;
      assert WithKey(a + b, axis, k) == head + WithKey(a[1..] + b, axis, k);
      WithKeyConcat(a[1..], b, axis, k);
      assert head + (WithKey(a[1..], axis, k) + WithKey(b, axis, k))
          == (head + WithKey(a[1..], axis, k)) + WithKey(b, axis, k);
    }
  }

  /** Swapping two neighbours with different coordinates keeps the order within every coordinate value. */
  lemma SwapKeepsKeyOrder(s: seq<Point>, j: int, axis: Axis)
    requires 0 < j < |s|
    requires Coord(s[j - 1], axis) != Coord(s[j], axis)
    ensures SameKeyOrder(s[j - 1 := s[j]][j := s[j - 1]], s, axis)
  {
    var t := s[j - 1 := s[j]][j := s[j - 1]];
    var pre, post := s[..j - 1], s[j + 1..];
    assert s == pre + [s[j - 1], s[j]] + post;
    assert t == pre + [s[j], s[j - 1]] + post;
    forall k
      ensures WithKey(t, axis, k) == WithKey(s, axis, k)
    {
      WithKeyConcat(pre + [s[j - 1], s[j]], post, axis, k);
      WithKeyConcat(pre, [s[j - 1], s[j]], axis, k);
      WithKeyConcat(pre + [s[j], s[j - 1]], post, axis, k);
      WithKeyConcat(pre, [s[j], s[j - 1]], axis, k);
      WithKeyConcat([s[j - 1]], [s[j]], axis, k);
      WithKeyConcat([s[j]], [s[j - 1]], axis, k);
    }
  }

  /**
   * A sorted sequence is determined by its points per coordinate value: two
   * sorted sequences with the same `WithKey` lists are equal. So every stable
   * sort of the same input gives the same result as `SortBy`.
   */
  lemma {:induction false} StableSortIsUnique(t1: seq<Point>, t2: seq<Point>, axis: Axis)
    requires SortedBy(t1, axis) && SortedBy(t2, axis)
    requires SameKeyOrder(t1, t2, axis)
    ensures t1 == t2
    decreases |t1| + |t2|
  {
    if t1 == [] || t2 == [] {
      if t1 != [] {
        FirstKeyPresent(t1, axis);
        assert false;
      } else if t2 != [] {
        FirstKeyPresent(t2, axis);
        assert false;
      }
    } else {
      var k1, k2 := Coord(t1[0], axis), Coord(t2[0], axis);
      assert WithKey(t1, axis, k1) == [t1[0]] + WithKey(t1[1..], axis, k1);
      assert WithKey(t2, axis, k2) == [t2[0]] + WithKey(t2[1..], axis, k2);
      KeyPresent(t2, axis, k1);
      KeyPresent(t1, axis, k2);
      assert k1 == k2;
      assert t1[0] == WithKey(t1, axis, k1)[0] == WithKey(t2, axis, k1)[0] == t2[0];
      forall k
        ensures WithKey(t1[1..], axis, k) == WithKey(t2[1..], axis, k)
      {
        var w1, w2 := WithKey(t1, axis, k), WithKey(t2, axis, k);
        assert w1 == w2;
        if k == k1 {
          assert w1 == [t1[0]] + WithKey(t1[1..], axis, k);
          assert w2 == [t2[0]] + WithKey(t2[1..], axis, k);
          assert WithKey(t1[1..], axis, k) == w1[1..];
          assert WithKey(t2[1..], axis, k) == w2[1..];
        } else {
          assert [] + WithKey(t1[1..], axis, k) == WithKey(t1[1..], axis, k);
          assert [] + WithKey(t2[1..], axis, k) == WithKey(t2[1..], axis, k);
        }
      }
      StableSortIsUnique(t1[1..], t2[1..], axis);
    }
  }

  /** The coordinate of the first point has that point in its `WithKey` list. */
  lemma FirstKeyPresent(s: seq<Point>, axis: Axis)
    requires s != []
    ensures WithKey(s, axis, Coord(s[0], axis)) != []
  {
  }

  /** A coordinate value with points in a sorted sequence is no smaller than the first point's. */
  lemma {:induction false} KeyPresent(s: seq<Point>, axis: Axis, k: int)
    requires SortedBy(s, axis)
    requires WithKey(s, axis, k) != []
    ensures s != [] && Coord(s[0], axis) <= k
    decreases |s|
  {
    if s != [] && Coord(s[0], axis) != k {
      KeyPresent(s[1..], axis, k);
    }
  }

  /**
   * `array.sort((a, b) => a.<axis> - b.<axis>)`: sorts in place, stably, by
   * one coordinate. The comparator's subtraction is exact on the 32-bit
   * integer coordinates, so it orders by the coordinate itself.
   */
  method SortBy(a: array<Point>, axis: Axis)
    modifies a
    ensures SortedBy(a[..], axis)
    ensures multiset(a[..]) == multiset(old(a[..]))
    ensures SameKeyOrder(a[..], old(a[..]), axis)
  {
    var i := 0;
    while i < a.Length
      invariant 0 <= i <= a.Length
      invariant forall p, q :: 0 <= p < q < i ==> Coord(a[p], axis) <= Coord(a[q], axis)
      invariant multiset(a[..]) == multiset(old(a[..]))
      invariant SameKeyOrder(a[..], old(a[..]), axis)
    {
      ghost var before := a[..];
      InsertAt(a, i, axis);
      SameKeyOrderTransitive(a[..], before, old(a[..]), axis);
      i := i + 1;
    }
  }

  /**
   * One insertion step: moves `a[i]` left past every larger neighbour, so that
   * the sorted prefix grows by one.
   */
  method InsertAt(a: array<Point>, i: int, axis: Axis)
    requires 0 <= i < a.Length
    requires forall p, q :: 0 <= p < q < i ==> Coord(a[p], axis) <= Coord(a[q], axis)
    modifies a
    ensures forall p, q :: 0 <= p < q <= i ==> Coord(a[p], axis) <= Coord(a[q], axis)
    ensures multiset(a[..]) == multiset(old(a[..]))
    ensures SameKeyOrder(a[..], old(a[..]), axis)
  {
    var j := i;
    while j > 0 && Coord(a[j - 1], axis) > Coord(a[j], axis)
      invariant 0 <= j <= i
      invariant forall p, q :: 0 <= p < q <= i && q != j ==> Coord(a[p], axis) <= Coord(a[q], axis)
      invariant multiset(a[..]) == multiset(old(a[..]))
      invariant SameKeyOrder(a[..], old(a[..]), axis)
    {
      ghost var before := a[..];
      SwapNeighbours(a, j, axis);
      SameKeyOrderTransitive(a[..], before, old(a[..]), axis);
      j := j - 1;
    }
  }

  /** Swaps `a[j - 1]` and `a[j]`, which are out of order. */
  method SwapNeighbours(a: array<Point>, j: int, axis: Axis)
    requires 0 < j < a.Length
    requires Coord(a[j - 1], axis) > Coord(a[j], axis)
    modifies a
    ensures a[j - 1] == old(a[j]) && a[j] == old(a[j - 1])
    ensures forall m :: 0 <= m < a.Length && m != j - 1 && m != j ==> a[m] == old(a[m])
    ensures multiset(a[..]) == multiset(old(a[..]))
    ensures SameKeyOrder(a[..], old(a[..]), axis)
  {
    SwapKeepsKeyOrder(a[..], j, axis);
    a[j - 1], a[j] := a[j], a[j - 1];
    assert a[..] == old(a[..])[j - 1 := old(a[j])][j := old(a[j - 1])];
  }

  lemma SameKeyOrderTransitive(s: seq<Point>, t: seq<Point>, u: seq<Point>, axis: Axis)
    requires SameKeyOrder(s, t, axis) && SameKeyOrder(t, u, axis)
    ensures SameKeyOrder(s, u, axis)
  {
  }

  // ---------------------------------------------------------------------
  // Corner ordering
  // ---------------------------------------------------------------------

  datatype Corners = Corners(topLeft: Point, topRight: Point, bottomRight: Point, bottomLeft: Point)

  /** The corners in the order the source coordinates list them. */
  function CornerList(c: Corners): seq<Point>
  {
    [c.topLeft, c.topRight, c.bottomRight, c.bottomLeft]
  }

  /**
   * `c` names the four points `pts`: both top corners lie no lower than both
   * bottom corners, and each pair runs left to right.
   */
  ghost predicate IsCornerOrdering(c: Corners, pts: seq<Point>)
  {
    && multiset(CornerList(c)) == multiset(pts)
    && c.topLeft.y <= c.bottomLeft.y && c.topLeft.y <= c.bottomRight.y
    && c.topRight.y <= c.bottomLeft.y && c.topRight.y <= c.bottomRight.y
    && c.topLeft.x <= c.topRight.x
    && c.bottomLeft.x <= c.bottomRight.x
  }

  /**
   * `c` names the points as the source's stable sorts do: `s` is `pts`
   * stably sorted by y, the first two points of `s` are the top corners and
   * the last two the bottom ones, and within each pair a tie in x keeps the
   * earlier point on the left.
   */
  ghost predicate NamesAsStableSort(c: Corners, s: seq<Point>, pts: seq<Point>)
  {
    && |s| == 4 && SortedBy(s, Y) && multiset(s) == multiset(pts) && SameKeyOrder(s, pts, Y)
    && (c.topLeft, c.topRight) == (if s[0].x <= s[1].x then (s[0], s[1]) else (s[1], s[0]))
    && (c.bottomLeft, c.bottomRight) == (if s[2].x <= s[3].x then (s[2], s[3]) else (s[3], s[2]))
  }

  /** The stable naming leaves no choice: any two such namings of the same points agree. */
  lemma StableNamingIsUnique(c1: Corners, s1: seq<Point>, c2: Corners, s2: seq<Point>, pts: seq<Point>)
    requires NamesAsStableSort(c1, s1, pts) && NamesAsStableSort(c2, s2, pts)
    ensures c1 == c2
  {
    SameKeyOrderTransitive(s1, pts, s2, Y);
    StableSortIsUnique(s1, s2, Y);
  }

  /**
   * The four-vertex branch: reads the points, sorts them by y, splits them
   * into the two upper and the two lower points, and sorts each pair by x.
   */
  method OrderCorners(data: seq<int>) returns (c: Corners)
    requires |data| == 8
    ensures IsCornerOrdering(c, PairUp(data))
    ensures exists s :: NamesAsStableSort(c, s, PairUp(data))
  {
    var points := ReadPoints(data);
    var sorted := new Point[4](i requires 0 <= i < 4 => points[i]);
    assert sorted[..] == points;
    SortBy(sorted, Y);
    c := SplitSorted(sorted[..]);
    assert NamesAsStableSort(c, sorted[..], points);
  }

  /**
   * Splits the points sorted by y into the upper and the lower pair and sorts
   * each by x; within a pair, a tie in x keeps the earlier point on the left.
   */
  method SplitSorted(s: seq<Point>) returns (c: Corners)
    requires |s| == 4 && SortedBy(s, Y)
    ensures IsCornerOrdering(c, s)
    ensures (c.topLeft, c.topRight) == if s[0].x <= s[1].x then (s[0], s[1]) else (s[1], s[0])
    ensures (c.bottomLeft, c.bottomRight) == if s[2].x <= s[3].x then (s[2], s[3]) else (s[3], s[2])
  {
    var topLeft, topRight := SortedCopy(s[..2]);
    var bottomLeft, bottomRight := SortedCopy(s[2..]);
    c := Corners(topLeft, topRight, bottomRight, bottomLeft);
    SplitIsCornerOrdering(s, [topLeft, topRight], [bottomLeft, bottomRight]);
  }

  /**
   * `pair.slice().sort((a, b) => a.x - b.x)` destructured into its two elements.
   * The last clause alone fixes the result; the first two are its consequences
   * that callers use as they are, and the sequence form is the one
   * `StablePairSort` proves. Each is kept so that no caller has to rederive
   * it, which keeps the proofs that use them small.
   */
  method SortedCopy(pair: seq<Point>) returns (left: Point, right: Point)
    requires |pair| == 2
    ensures multiset([left, right]) == multiset(pair)
    ensures left.x <= right.x
    ensures [left, right] == if pair[0].x <= pair[1].x then pair else [pair[1], pair[0]]
    ensures (left, right) == if pair[0].x <= pair[1].x then (pair[0], pair[1]) else (pair[1], pair[0])
  {
    var copy := new Point[2](i requires 0 <= i < 2 => pair[i]);
    assert copy[..] == pair;
    SortBy(copy, X);
    left, right := copy[0], copy[1];
    assert copy[..] == [left, right];
    assert Coord(left, X) <= Coord(right, X);
    StablePairSort(pair, [left, right]);
    assert [left, right][0] == left && [left, right][1] == right;
  }

  /**
   * A stable sort by x of two points keeps them in place unless the second
   * lies strictly to the left of the first: on a tie, the first stays first.
   */
  lemma StablePairSort(pair: seq<Point>, t: seq<Point>)
    requires |pair| == 2 && |t| == 2
    requires SortedBy(t, X) && multiset(t) == multiset(pair) && SameKeyOrder(t, pair, X)
    ensures t == if pair[0].x <= pair[1].x then pair else [pair[1], pair[0]]
  {
    assert pair == [pair[0], pair[1]];
    assert t == [t[0], t[1]];
    PairIsPermutation(t, pair[0], pair[1]);
    assert Coord(t[0], X) <= Coord(t[1], X);
    if pair[0].x == pair[1].x {
      var k := pair[0].x;
      TiedPair(t[0], t[1], k);
      TiedPair(pair[0], pair[1], k);
      assert WithKey(t, X, k) == WithKey(pair, X, k);
    }
  }

  /** Two points with the same x form their own `WithKey` list for that x. */
  lemma TiedPair(a: Point, b: Point, k: int)
    requires a.x == k && b.x == k
    ensures WithKey([a, b], X, k) == [a, b]
  {
    assert [a, b][1..] == [b];
    assert WithKey([b], X, k) == [b] + WithKey([], X, k);
  }

  /** A two-element sequence with the multiset of a and b is [a, b] or [b, a]. */
  lemma PairIsPermutation(t: seq<Point>, a: Point, b: Point)
    requires |t| == 2 && multiset(t) == multiset([a, b])
    ensures (t[0] == a && t[1] == b) || (t[0] == b && t[1] == a)
  {
    assert t == [t[0]] + [t[1]];
    assert t[0] in multiset([a, b]);
    if t[0] == a {
      assert multiset([t[1]]) == multiset([b]);
    } else {
      assert multiset([t[1]]) == multiset([a]);
    }
  }

  /**
   * Splitting four points sorted by y into the first and last two, and
   * sorting each pair by x, gives a corner ordering of the four points.
   */
  lemma SplitIsCornerOrdering(s: seq<Point>, top: seq<Point>, bottom: seq<Point>)
    requires |s| == 4 && SortedBy(s, Y)
    requires |top| == 2 && SortedBy(top, X) && multiset(top) == multiset(s[..2])
    requires |bottom| == 2 && SortedBy(bottom, X) && multiset(bottom) == multiset(s[2..])
    ensures IsCornerOrdering(Corners(top[0], top[1], bottom[1], bottom[0]), s)
  {
    TopAboveBottom(s, top, bottom);
    assert Coord(top[0], X) <= Coord(top[1], X);
    assert Coord(bottom[0], X) <= Coord(bottom[1], X);
    SplitKeepsPoints(s, top, bottom);
  }

  /** Every point of the first half of a y-sorted sequence lies no lower than every point of the second half. */
  lemma TopAboveBottom(s: seq<Point>, top: seq<Point>, bottom: seq<Point>)
    requires |s| == 4 && SortedBy(s, Y)
    requires multiset(top) == multiset(s[..2]) && multiset(bottom) == multiset(s[2..])
    ensures forall i, j :: 0 <= i < |top| && 0 <= j < |bottom| ==> top[i].y <= bottom[j].y
  {
    forall i, j | 0 <= i < |top| && 0 <= j < |bottom|
      ensures top[i].y <= bottom[j].y
    {
      assert top[i] in multiset(s[..2]);
      assert bottom[j] in multiset(s[2..]);
      var p :| 0 <= p < 2 && s[p] == top[i];
      var q :| 2 <= q < 4 && s[q] == bottom[j];
      assert Coord(s[p], Y) <= Coord(s[q], Y);
    }
  }

  lemma SplitKeepsPoints(s: seq<Point>, top: seq<Point>, bottom: seq<Point>)
    requires |s| == 4 && |top| == 2 && |bottom| == 2
    requires multiset(top) == multiset(s[..2]) && multiset(bottom) == multiset(s[2..])
    ensures multiset([top[0], top[1], bottom[1], bottom[0]]) == multiset(s)
  {
    assert [top[0], top[1], bottom[1], bottom[0]] == top + [bottom[1], bottom[0]];
    assert multiset([bottom[1], bottom[0]]) == multiset(bottom) by {
      assert bottom == [bottom[0], bottom[1]];
    }
    assert s == s[..2] + s[2..];
  }

  /** The source coordinates: TL, TR, BR, BL flattened as x, y pairs. */
  function SrcCoords(c: Corners): (r: seq<int>)
    ensures |r| == 8
    ensures PairUp(r) == CornerList(c)
  {
    PairUpFlatten(CornerList(c));
    Flatten(CornerList(c))
  }

  /** The destination coordinates: the corners of a `width` by `height` image, in the same order. */
  function DstCoords(width: int, height: int): (r: seq<int>)
    ensures |r| == 8
    ensures PairUp(r) == [Point(0, 0), Point(width, 0), Point(width, height), Point(0, height)]
  {
    [0, 0, width, 0, width, height, 0, height]
  }

  /**
   * Each corner is matched to the output corner at the same position:
   * top-left to the origin, top-right to (width, 0), bottom-right to
   * (width, height) and bottom-left to (0, height).
   */
  lemma {:induction false} CornersMatchOutput(c: Corners, width: int, height: int)
    ensures PairUp(SrcCoords(c))[0] == c.topLeft && PairUp(DstCoords(width, height))[0] == Point(0, 0)
    ensures PairUp(SrcCoords(c))[1] == c.topRight && PairUp(DstCoords(width, height))[1] == Point(width, 0)
    ensures PairUp(SrcCoords(c))[2] == c.bottomRight && PairUp(DstCoords(width, height))[2] == Point(width, height)
    ensures PairUp(SrcCoords(c))[3] == c.bottomLeft && PairUp(DstCoords(width, height))[3] == Point(0, height)
  {
  }

  // ---------------------------------------------------------------------
  // The scanner's state
  // ---------------------------------------------------------------------

  /** The polygon `approxPolyDP` returns: `rows` vertices, `data` its `data32S`. */
  datatype Polygon = Polygon(rows: nat, data: seq<int>)

  /** The arguments of `getPerspectiveTransform`; the scanned image is the warp they define. */
  datatype Warp = Warp(src: seq<int>, dst: seq<int>)

  /** `src` lists, as flat pairs, a corner ordering of `pts`. */
  ghost predicate RectifiesQuad(src: seq<int>, pts: seq<Point>)
  {
    |src| == 8 && var q := PairUp(src); IsCornerOrdering(Corners(q[0], q[1], q[2], q[3]), pts)
  }

  ghost predicate SomePositive(areas: seq<int>)
  {
    exists i :: 0 <= i < |areas| && areas[i] > 0
  }

  class DocumentScanner {
    var scannedImage: Option<Warp>

    constructor ()
      ensures scannedImage == None
    {
      scannedImage := None;
    }

    /**
     * `processImage`: `areas` are the contour areas in `findContours` order,
     * `approx` the polygon approximating the chosen contour, and `width` by
     * `height` the size of the captured image. A new scan is stored exactly
     * when some contour was chosen and its polygon has four vertices.
     */
    method ProcessImage(areas: seq<int>, approx: Polygon, width: int, height: int)
      requires |approx.data| == 2 * approx.rows
      modifies this
      ensures SomePositive(areas) && approx.rows == 4 ==>
        && scannedImage.Some?
        && RectifiesQuad(scannedImage.value.src, PairUp(approx.data))
        && scannedImage.value.dst == DstCoords(width, height)
      ensures SomePositive(areas) && approx.rows == 4 ==>
        exists c, s :: NamesAsStableSort(c, s, PairUp(approx.data)) && scannedImage.value.src == SrcCoords(c)
      ensures !(SomePositive(areas) && approx.rows == 4) ==> scannedImage == old(scannedImage)
    {
      var best, maxArea := LargestContour(areas);
      if best.Some? && approx.rows == 4 {
        var c := OrderCorners(approx.data);
        var src := SrcCoords(c);
        scannedImage := Some(Warp(src, DstCoords(width, height)));
      }
    }
  }
}
