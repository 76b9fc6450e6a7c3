/** Lines and circles: which pixels they are, and that the integer algorithms paint exactly these. */
module Raster {
  import opened Common

  type Point = (int, int)

  function Abs(a: int): nat {
    if a < 0 then 0 - a else a
  }

  function Sign(d: int): int {
    if d > 0 then 1 else -1
  }

  // ---------------------------------------------------------------- lines

  /** The multiple of `a / d` at `n`, rounded to the nearest integer, halves upwards. */
  function Rounded(n: nat, a: nat, d: nat): nat {
    if d == 0 then 0 else (n * a + d / 2) / d
  }

  function Length(x1: int, y1: int, x2: int, y2: int): nat {
    Max(Abs(x2 - x1), Abs(y2 - y1))
  }

  /** The `n`-th pixel of a line: one step along the longer side at a time, and the other coordinate
      rounded. */
  function LinePoint(x1: int, y1: int, x2: int, y2: int, n: nat): Point {
    var dx, dy, len := x2 - x1, y2 - y1, Length(x1, y1, x2, y2);
    if Abs(dx) >= Abs(dy) then (x1 + Sign(dx) * n, y1 + Sign(dy) * Rounded(n, Abs(dy), len))
    else (x1 + Sign(dx) * Rounded(n, Abs(dx), len), y1 + Sign(dy) * n)
  }

  function LinePoints(x1: int, y1: int, x2: int, y2: int, n: nat): set<Point> {
    set k: nat | k <= n :: LinePoint(x1, y1, x2, y2, k)
  }

  lemma RoundedBounds(n: nat, a: nat, d: nat)
    requires d > 0
    ensures var k := Rounded(n, a, d); d * k <= n * a + d / 2 < d * k + d
  {
  }

  lemma RoundedUnique(n: nat, a: nat, d: nat, k: int)
    requires d > 0 && d * k <= n * a + d / 2 < d * k + d
    ensures k == Rounded(n, a, d)
  {
    var r := Rounded(n, a, d);
    RoundedBounds(n, a, d);
    ScaleLess(d, k, r);
    ScaleLess(d, r, k);
  }

  /** The rounded coordinate starts at the start, ends at the end and stays between them. */
  lemma RoundedRange(n: nat, a: nat, d: nat)
    requires 0 < d && n <= d && a <= d
    ensures Rounded(0, a, d) == 0 && Rounded(d, a, d) == a && Rounded(n, a, d) <= a
  {
    RoundedUnique(0, a, d, 0);
    RoundedUnique(d, a, d, a);
    RoundedBounds(n, a, d);
    hide Rounded;
    TimesMono(a, n, d);
    ScaleLess(d, a, Rounded(n, a, d));
  }

  /** A line starts and ends where it should, and stays in the rectangle between these two points. */
  lemma LineEnds(x1: int, y1: int, x2: int, y2: int, n: nat)
    requires n <= Length(x1, y1, x2, y2)
    ensures LinePoint(x1, y1, x2, y2, 0) == (x1, y1)
    ensures LinePoint(x1, y1, x2, y2, Length(x1, y1, x2, y2)) == (x2, y2)
    ensures var p := LinePoint(x1, y1, x2, y2, n);
      Min(x1, x2) <= p.0 <= Max(x1, x2) && Min(y1, y2) <= p.1 <= Max(y1, y2)
  {
    var dx, dy, len := x2 - x1, y2 - y1, Length(x1, y1, x2, y2);
    hide Rounded;
    if len > 0 {
      RoundedRange(n, if Abs(dx) >= Abs(dy) then Abs(dy) else Abs(dx), len);
      SignTimes(dx, 0);
      SignTimes(dy, 0);
      SignTimes(dx, n);
      SignTimes(dy, n);
      SignTimes(dx, len);
      SignTimes(dy, len);
      SignTimes(dx, Rounded(n, Abs(dx), len));
      SignTimes(dy, Rounded(n, Abs(dy), len));
      SignTimes(dx, Abs(dx));
      SignTimes(dy, Abs(dy));
    } else {
      assert LinePoint(x1, y1, x2, y2, 0) == (x1, y1) by { assert Rounded(0, 0, 0) == 0 by { RoundedZero(0, 0); } }
    }
  }

  lemma RoundedZero(n: nat, a: nat)
    ensures Rounded(n, a, 0) == 0
  {
  }

  lemma SignTimes(d: int, n: nat)
    ensures Sign(d) * n == if d > 0 then n else 0 - n
  {
  }

  /** What the rounding leaves over. */
  function Left(n: nat, a: nat, d: nat): int {
    n * a + d / 2 - d * Rounded(n, a, d)
  }

  lemma RoundedNext(n: nat, a: nat, d: nat)
    requires a <= d && 0 < d
    ensures 0 <= Left(n, a, d) < d && Left(0, a, d) == d / 2
    ensures var carry := Left(n, a, d) + a >= d;
      && Rounded(n + 1, a, d) == Rounded(n, a, d) + (if carry then 1 else 0)
      && Left(n + 1, a, d) == Left(n, a, d) + a - (if carry then d else 0)
  {
    RoundedBounds(n, a, d);
    RoundedUnique(0, a, d, 0);
    var k := Rounded(n, a, d);
    var k' := if Left(n, a, d) + a >= d then k + 1 else k;
    assert (n + 1) * a == n * a + a && d * (k + 1) == d * k + d;
    hide Rounded;
    RoundedUnique(n + 1, a, d, k');
  }

  /** From one pixel of a line to the next. */
  lemma LineNext(x1: int, y1: int, x2: int, y2: int, n: nat)
    requires n < Length(x1, y1, x2, y2)
    ensures var dx, dy, len := x2 - x1, y2 - y1, Length(x1, y1, x2, y2);
      var p, carry := LinePoint(x1, y1, x2, y2, n), Left(n, Min(Abs(dx), Abs(dy)), len) + Min(Abs(dx), Abs(dy)) >= len;
      LinePoint(x1, y1, x2, y2, n + 1) ==
        if Abs(dx) >= Abs(dy) then (p.0 + Sign(dx), p.1 + if carry then Sign(dy) else 0)
        else (p.0 + if carry then Sign(dx) else 0, p.1 + Sign(dy))
  {
    var dx, dy, len := x2 - x1, y2 - y1, Length(x1, y1, x2, y2);
    RoundedNext(n, Min(Abs(dx), Abs(dy)), len);
    hide Rounded, Left;
    var k := Rounded(n, Min(Abs(dx), Abs(dy)), len);
    SignNext(dx, k);
    SignNext(dy, k);
    SignNext(dx, n);
    SignNext(dy, n);
    hide Sign;
  }

  lemma SignNext(d: int, n: nat)
    ensures Sign(d) * (n + 1) == Sign(d) * n + Sign(d)
  {
  }

  /** No pixel is more than half a pixel away from the ideal line, measured across its longer side. */
  lemma HalfPixel(x1: int, y1: int, x2: int, y2: int, n: nat)
    requires n <= Length(x1, y1, x2, y2)
    ensures var dx, dy, p := x2 - x1, y2 - y1, LinePoint(x1, y1, x2, y2, n);
      if Abs(dx) >= Abs(dy) then 2 * Abs((p.1 - y1) * dx - (p.0 - x1) * dy) <= Abs(dx)
      else 2 * Abs((p.0 - x1) * dy - (p.1 - y1) * dx) <= Abs(dy)
  {
    var dx, dy, len := x2 - x1, y2 - y1, Length(x1, y1, x2, y2);
    hide Rounded;
    if len == 0 {
      LineEnds(x1, y1, x2, y2, n);
    } else if Abs(dx) >= Abs(dy) {
      Across(dx, dy, n);
    } else {
      Across(dy, dx, n);
    }
  }

  lemma Across(d: int, a: int, n: nat)
    requires Abs(d) >= Abs(a) && d != 0
    ensures 2 * Abs(Sign(a) * Rounded(n, Abs(a), Abs(d)) * d - Sign(d) * n * a) <= Abs(d)
  {
    var k := Rounded(n, Abs(a), Abs(d));
    RoundedBounds(n, Abs(a), Abs(d));
    hide Rounded;
    Mirrored(a, d, k);
    Mirrored(d, a, n);
    var e := Abs(d) * k - n * Abs(a);
    assert Abs(d) * k == k * Abs(d) && n * Abs(a) == Abs(a) * n;
    assert Sign(a) * k * d - Sign(d) * n * a == if (a > 0) == (d > 0) then e else 0 - e;
  }

  lemma Mirrored(a: int, d: int, m: nat)
    ensures Sign(a) * m * d == if (a > 0) == (d > 0) then Abs(d) * m else 0 - Abs(d) * m
  {
    var v: int := Abs(d);
    SignTimes(a, m);
    assert d == if d > 0 then v else 0 - v;
    assert (0 - m) * v == 0 - m * v && (0 - m) * (0 - v) == m * v && m * (0 - v) == 0 - m * v;
  }

  /** A line has one pixel more than its longer side has steps. */
  lemma {:induction false} LineCount(x1: int, y1: int, x2: int, y2: int, n: nat)
    requires n <= Length(x1, y1, x2, y2)
    ensures |LinePoints(x1, y1, x2, y2, n)| == n + 1
  {
    LineGrows(x1, y1, x2, y2, n);
    if n > 0 {
      LineCount(x1, y1, x2, y2, n - 1);
    }
  }

  lemma LineGrows(x1: int, y1: int, x2: int, y2: int, n: nat)
    requires n <= Length(x1, y1, x2, y2)
    ensures n == 0 ==> LinePoints(x1, y1, x2, y2, n) == {LinePoint(x1, y1, x2, y2, 0)}
    ensures n > 0 ==>
      LinePoints(x1, y1, x2, y2, n) == LinePoints(x1, y1, x2, y2, n - 1) + {LinePoint(x1, y1, x2, y2, n)}
    ensures n > 0 ==> LinePoint(x1, y1, x2, y2, n) !in LinePoints(x1, y1, x2, y2, n - 1)
  {
    hide Rounded;
    var p := LinePoint(x1, y1, x2, y2, n);
    if n > 0 {
      forall k: nat | k <= n - 1 ensures LinePoint(x1, y1, x2, y2, k) != p {
        SignTimes(x2 - x1, n);
        SignTimes(x2 - x1, k);
        SignTimes(y2 - y1, n);
        SignTimes(y2 - y1, k);
      }
    }
  }

  // ---------------------------------------------------------------- circles

  /** The pixels of one octant of the circle of radius r around the origin: those whose squared distance
      from the origin misses that of the circle by no more than the longer coordinate. */
  predicate Arc(r: nat, x: nat, y: nat) {
    y <= x && if r == 0 then x == 0 else 0 - x < x * x + y * y - r * r <= x
  }

  /** The octant has no pixel in this row. */
  ghost predicate NoArc(r: nat, y: nat) {
    forall x: nat :: !Arc(r, x, y)
  }

  /** The coordinates of a point in its octant, seen from a centre. */
  function Far(cx: int, cy: int, p: Point): nat {
    Max(Abs(p.0 - cx), Abs(p.1 - cy))
  }

  function Near(cx: int, cy: int, p: Point): nat {
    Min(Abs(p.0 - cx), Abs(p.1 - cy))
  }

  predicate Ring(cx: int, cy: int, r: nat, p: Point) {
    Arc(r, Far(cx, cy, p), Near(cx, cy, p))
  }

  lemma Rising(a: nat, b: nat)
    requires a < b
    ensures a * (a + 1) < b * (b + 1) && a * (a + 1) <= b * (b - 1) && a * a < b * b
  {
    assert b * (b - 1) == a * (a + 1) + (b - 1 - a) * (b + a) by {
      assert (b - 1 - a) * (b + a) == b * b - b - a * a - a;
    }
    assert (b - 1 - a) * (b + a) >= 0;
    assert b * b - a * a == (b - a) * (b + a);
  }

  /** In each row an octant of a circle has at most one pixel, and it moves inwards from row to row. */
  lemma ArcUnique(r: nat, x: nat, y: nat, x': nat, y': nat)
    requires Arc(r, x, y) && Arc(r, x', y') && y <= y'
    ensures x' <= x && (y == y' ==> x == x')
  {
    if y < y' { Rising(y, y'); }
    if x < x' { Rising(x, x'); }
    if x' < x { Rising(x', x); }
  }

  /** Every pixel of a circle is in the square around it. */
  lemma RingInside(cx: int, cy: int, r: nat, p: Point)
    requires Ring(cx, cy, r, p)
    ensures cx - r <= p.0 <= cx + r && cy - r <= p.1 <= cy + r
  {
    var x, y := Far(cx, cy, p), Near(cx, cy, p);
    if r > 0 {
      assert Arc(r, r, 0);
      ArcUnique(r, r, 0, x, y);
    }
  }

  /** The error term of the circle algorithm after `y` rows. */
  function Error(r: int, x: int, y: int): int {
    x * x - x + (y + 1) * (y + 1) - r * r
  }

  lemma ErrorNext(r: nat, x: nat, y: nat)
    ensures Error(r, x, y + 1) == Error(r, x, y) + 2 * (y + 1) + 1
    ensures x > 0 ==> Error(r, x - 1, y + 1) == Error(r, x, y) + 2 * (y + 1) - 2 * (x - 1) + 1
  {
    assert (y + 2) * (y + 2) == (y + 1) * (y + 1) + 2 * y + 3;
    assert x > 0 ==> (x - 1) * (x - 1) == x * x - 2 * x + 1;
  }

  /** The sign of the error term says where the octant goes on, if it does. */
  lemma ArcNext(r: nat, x: nat, y: nat)
    requires Arc(r, x, y) && y < x
    ensures var x' := if Error(r, x, y) <= 0 then x else x - 1;
      if y + 1 <= x' then Arc(r, x', y + 1) else NoArc(r, y + 1)
  {
    var x' := if Error(r, x, y) <= 0 then x else x - 1;
    assert (y + 1) * (y + 1) == y * y + 2 * y + 1;
    if y + 1 <= x' {
      if x' < x { assert x' * x' == x * x - 2 * x + 1; }
    } else {
      var v := y + 1;
      forall u: nat ensures !Arc(r, u, v) {
        if Arc(r, u, v) { ArcUnique(r, x, y, u, v); }
      }
    }
  }

  /** Once the octant has ended it does not go on further up. */
  lemma ArcEnd(r: nat, x: nat, y: nat, u: nat, v: nat)
    requires Arc(r, x, y) && (x == y || (x == y + 1 && NoArc(r, x)))
    requires Arc(r, u, v)
    ensures v <= y
  {
    if v > y { ArcUnique(r, x, y, u, v); }
  }

  lemma ArcErrorSmall(r: nat, x: nat, y: nat)
    requires Arc(r, x, y)
    ensures -2 * x <= Error(r, x, y) <= 2 * y + 1
  {
    assert (y + 1) * (y + 1) == y * y + 2 * y + 1;
  }

  /** The circle around a centre.  Of a circle with a negative radius there are only the four outermost
      pixels. */
  function CirclePoints(cx: int, cy: int, r: int): set<Point> {
    if r < 0 then Cross(cx, cy, r)
    else set x: int, y: int | cx - r <= x <= cx + r && cy - r <= y <= cy + r && Ring(cx, cy, r, (x, y)) :: (x, y)
  }

  function Cross(cx: int, cy: int, r: int): set<Point> {
    {(cx + r, cy), (cx - r, cy), (cx, cy + r), (cx, cy - r)}
  }

  /** The mirror images of a point, seen from a centre. */
  function Four(cx: int, cy: int, x: int, y: int): set<Point> {
    {(cx + x, cy + y), (cx - x, cy + y), (cx + x, cy - y), (cx - x, cy - y)}
  }

  function Mirrors(cx: int, cy: int, x: int, y: int): set<Point> {
    Four(cx, cy, x, y) + Four(cx, cy, y, x)
  }

  lemma CircleHas(cx: int, cy: int, r: nat, p: Point)
    ensures p in CirclePoints(cx, cy, r) <==> Ring(cx, cy, r, p)
  {
    if Ring(cx, cy, r, p) { RingInside(cx, cy, r, p); }
    hide Ring;
    assert p == (p.0, p.1);
  }

  /** The pixels of a circle are those whose squared distance from its centre misses that of the ideal circle by no
      more than the longer coordinate. */
  lemma CircleMeans(cx: int, cy: int, r: nat, p: Point)
    requires r > 0
    ensures var dx, dy := p.0 - cx, p.1 - cy;
      p in CirclePoints(cx, cy, r) <==>
        0 - Longer(dx, dy) < dx * dx + dy * dy - r * r <= Longer(dx, dy)
  {
    var dx, dy := p.0 - cx, p.1 - cy;
    CircleHas(cx, cy, r, p);
    Squares(dx, dy);
    hide CirclePoints, Abs;
    assert Near(cx, cy, p) <= Far(cx, cy, p);
    var x, y := Far(cx, cy, p), Near(cx, cy, p);
    assert x * x + y * y == dx * dx + dy * dy;
  }

  /** The longer one of two coordinates. */
  function Longer(dx: int, dy: int): int {
    if dx * dx >= dy * dy then (if dx < 0 then 0 - dx else dx) else (if dy < 0 then 0 - dy else dy)
  }

  lemma Squares(a: int, b: int)
    ensures Abs(a) * Abs(a) == a * a && Abs(b) * Abs(b) == b * b
    ensures Longer(a, b) == if Abs(a) >= Abs(b) then Abs(a) else Abs(b)
  {
    var u, v: nat := Abs(a), Abs(b);
    assert u * u == a * a && v * v == b * b;
    if u < v { Rising(u, v); }
    if v < u { Rising(v, u); }
  }

  /** The four outermost points are among them. */
  lemma CircleReaches(cx: int, cy: int, r: nat)
    ensures Cross(cx, cy, r) <= CirclePoints(cx, cy, r)
  {
    forall p | p in Cross(cx, cy, r) ensures p in CirclePoints(cx, cy, r) {
      CircleHas(cx, cy, r, p);
    }
  }

  lemma MirrorsHave(cx: int, cy: int, x: nat, y: nat, p: Point)
    requires y <= x
    ensures p in Mirrors(cx, cy, x, y) <==> Far(cx, cy, p) == x && Near(cx, cy, p) == y
  {
  }

  /** The pixels of the circle in the first rows of each octant. */
  ghost predicate FirstRows(points: set<Point>, cx: int, cy: int, r: nat, y: int) {
    forall p: Point :: p in points <==> Ring(cx, cy, r, p) && Near(cx, cy, p) <= y
  }

  lemma RowAdded(points: set<Point>, cx: int, cy: int, r: nat, x: nat, y: nat)
    requires FirstRows(points, cx, cy, r, y - 1) && Arc(r, x, y) && y <= x
    ensures FirstRows(points + Mirrors(cx, cy, x, y), cx, cy, r, y)
  {
    hide Arc, Mirrors, Far, Near;
    forall p: Point ensures p in points + Mirrors(cx, cy, x, y) <==> Ring(cx, cy, r, p) && Near(cx, cy, p) <= y {
      MirrorsHave(cx, cy, x, y, p);
      if Ring(cx, cy, r, p) && Near(cx, cy, p) == y { ArcUnique(r, x, y, Far(cx, cy, p), y); }
    }
  }

  lemma NoRows(cx: int, cy: int, r: nat)
    ensures FirstRows({}, cx, cy, r, -1)
  {
  }

  lemma AllRows(points: set<Point>, cx: int, cy: int, r: nat, x: nat, y: nat)
    requires FirstRows(points, cx, cy, r, y) && Arc(r, x, y) && (x == y || (x == y + 1 && NoArc(r, x)))
    ensures points == CirclePoints(cx, cy, r)
  {
    hide Arc, Far, Near, CirclePoints, NoArc;
    forall p: Point ensures p in points <==> p in CirclePoints(cx, cy, r) {
      CircleHas(cx, cy, r, p);
      if Ring(cx, cy, r, p) { ArcEnd(r, x, y, Far(cx, cy, p), Near(cx, cy, p)); }
    }
  }
}
