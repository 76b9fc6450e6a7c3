/** Lines and circles painted into a frame buffer. */
module Canvas {
  import opened Common
  import opened Raster

  const I32 := 0x8000_0000
  const SIDE_LIMIT := 0x4000_0000

  type Color = nat

  predicate On(width: nat, height: nat, p: Point) {
    0 <= p.0 < width && 0 <= p.1 < height
  }

  function Index(width: nat, p: Point): int {
    width * p.1 + p.0
  }

  lemma IndexInside(width: nat, height: nat, p: Point)
    requires On(width, height, p)
    ensures 0 <= Index(width, p) < width * height
  {
    assert width * (height - 1 - p.1) >= 0;
    assert width * height == width * p.1 + width * (height - 1 - p.1) + width;
  }

  lemma IndexApart(width: nat, height: nat, p: Point, q: Point)
    requires On(width, height, p) && On(width, height, q) && p != q
    ensures Index(width, p) != Index(width, q)
  {
    if p.1 < q.1 { Rows(width, p.1, q.1); }
    if q.1 < p.1 { Rows(width, q.1, p.1); }
  }

  lemma Rows(width: nat, a: int, b: int)
    requires a < b
    ensures width * a + width <= width * b
  {
    assert width * b == width * a + width + width * (b - a - 1);
  }

  function PixelAt(buffer: seq<Color>, width: nat, height: nat, p: Point): Color
    requires |buffer| >= width * height && On(width, height, p)
  {
    IndexInside(width, height, p);
    buffer[Index(width, p)]
  }

  /** Of all pixels on the screen exactly those in `points` have been painted. */
  ghost predicate Painted(buffer: seq<Color>, was: seq<Color>, width: nat, height: nat, points: set<Point>,
    color: Color)
    requires |buffer| == |was| >= width * height
  {
    forall p: Point :: On(width, height, p) ==>
      PixelAt(buffer, width, height, p) == if p in points then color else PixelAt(was, width, height, p)
  }

  lemma PaintOne(buffer: seq<Color>, was: seq<Color>, width: nat, height: nat, points: set<Point>, color: Color,
    p: Point)
    requires |buffer| == |was| >= width * height && Painted(buffer, was, width, height, points, color)
    requires On(width, height, p)
    ensures 0 <= Index(width, p) < |buffer|
    ensures Painted(buffer[Index(width, p) := color], was, width, height, points + {p}, color)
  {
    IndexInside(width, height, p);
    forall q: Point | On(width, height, q)
      ensures PixelAt(buffer[Index(width, p) := color], width, height, q) ==
        if q in points + {p} then color else PixelAt(was, width, height, q)
    {
      if q != p { IndexApart(width, height, p, q); }
      IndexInside(width, height, q);
    }
  }

  lemma NotPainted(was: seq<Color>, width: nat, height: nat, color: Color)
    requires |was| >= width * height
    ensures Painted(was, was, width, height, {}, color)
  {
  }

  // ---------------------------------------------------------------- the bounds check of circles

  /** A word as a signed number. */
  function Signed(word: int): int {
    if word < I32 then word else word - WORD
  }

  lemma SignedZero(word: nat)
    requires word < WORD
    ensures Signed(word) == 0 <==> word == 0
  {
  }

  /** The check the code makes, on 32-bit words: neither end of the two diameters is off the screen. */
  predicate InBounds(width: nat, height: nat, x: nat, y: nat, radius: nat) {
    && (x + radius) % WORD < width && (y + radius) % WORD < height
    && (x - radius) % WORD < width && (y - radius) % WORD < height
  }

  /** The square of pixels this far around a centre is on the screen. */
  predicate Fits(width: nat, height: nat, x: int, y: int, r: nat) {
    0 <= x - r && x + r < width && 0 <= y - r && y + r < height
  }

  /** When the centre is on the screen, the check makes sure that the whole circle is.  The radius counts
      as a signed number, as in the rest of the code. */
  lemma CheckedInside(width: nat, height: nat, x: nat, y: nat, radius: nat)
    requires width <= SIDE_LIMIT && height <= SIDE_LIMIT && x < width && y < height && radius < WORD
    ensures var r := Signed(radius);
      InBounds(width, height, x, y, radius) <==>
        Fits(width, height, x, y, Abs(r))
  {
    DiameterInside(x, radius, width);
    DiameterInside(y, radius, height);
  }

  lemma DiameterInside(x: nat, radius: nat, limit: nat)
    requires x < limit <= SIDE_LIMIT && radius < WORD
    ensures ((x + radius) % WORD < limit && (x - radius) % WORD < limit) <==>
      0 <= x - Abs(Signed(radius)) && x + Abs(Signed(radius)) < limit
  {
    if radius < I32 {
      assert (x + radius) % WORD == x + radius;
      assert (x - radius) % WORD == if x >= radius then x - radius else x - radius + WORD;
    } else {
      assert (x + radius) % WORD == if x + radius < WORD then x + radius else x + radius - WORD;
      assert (x - radius) % WORD == x - radius + WORD;
    }
  }

  /** What the check lets pass is all right if and only if the centre is on the screen.  The check does not
      notice a centre that is off the screen by half the range of a word; the topmost point of the circle is
      then written outside of the buffer. */
  lemma CheckedExactly(width: nat, height: nat, x: nat, y: nat, radius: nat)
    requires width <= SIDE_LIMIT && height <= SIDE_LIMIT && width * height <= I32
    requires x < WORD && y < WORD && radius < WORD && InBounds(width, height, x, y, radius)
    ensures (x < width && y < height) <==> (width * ((y - radius) % WORD) + x) % WORD < width * height
  {
    var b := (y - radius) % WORD;
    SumOfWords(x, radius, width);
    SumOfWords(y, radius, height);
    TogetherOff(x, y, radius, width, height);
    IndexInside(width, height, (if x < width then x else x - I32, b));
    assert (width * b + x) % WORD == width * b + x;
  }

  /** Such a centre: 2^31 beyond the screen, with as large a radius.  The check lets it pass, and the topmost
      point of the circle is far behind a buffer of 100 by 100 pixels. */
  lemma CheckMissesCentre()
    ensures InBounds(100, 100, I32 + 5, I32 + 5, I32)
    ensures (100 * ((I32 + 5 - I32) % WORD) + I32 + 5) % WORD >= 100 * 100
  {
  }

  /** The same place in words, whatever has wrapped on the way. */
  lemma SameIndex(width: nat, a: int, b: int, c: int, k: int)
    requires a == b + k * WORD
    ensures (width * a + c) % WORD == (width * b + c) % WORD
  {
    assert width * a == width * b + width * k * WORD;
    WholeTurns(width * b + c, width * k);
  }

  lemma WholeTurns(n: int, k: int)
    ensures (n + k * WORD) % WORD == n % WORD
  {
  }

  /** The topmost point of a circle is written outside of the buffer just when the centre is off the screen. */
  lemma TopmostOff(width: nat, height: nat, x: nat, y: nat, radius: nat)
    requires width <= SIDE_LIMIT && height <= SIDE_LIMIT && width * height <= I32
    requires x < WORD && y < WORD && radius < WORD && InBounds(width, height, x, y, radius)
    ensures (x < width && y < height) <==> (width * (y - Signed(radius)) + x) % WORD < width * height
    ensures !(x < width && y < height) ==> radius > 0
  {
    CheckedExactly(width, height, x, y, radius);
    var b := (y - radius) % WORD;
    var k := (y - radius) / WORD;
    assert y - radius == b + k * WORD;
    SameIndex(width, y - Signed(radius), b, x, if radius < I32 then k else k + 1);
  }

  lemma TogetherOff(x: nat, y: nat, radius: nat, width: nat, height: nat)
    requires width <= SIDE_LIMIT && height <= SIDE_LIMIT && x < WORD && y < WORD && radius < WORD
    requires InBounds(width, height, x, y, radius)
    ensures x < width <==> y < height
  {
    SumOfWords(x, radius, width);
    SumOfWords(y, radius, height);
    if x < width { DiameterInside(x, radius, width); }
    if y < height { DiameterInside(y, radius, height); }
    NearHalf(x, radius, width);
    NearHalf(y, radius, height);
  }

  lemma NearHalf(x: nat, radius: nat, limit: nat)
    requires x < WORD && radius < WORD && limit <= SIDE_LIMIT && (x + radius) % WORD < limit
    ensures I32 <= x < I32 + limit ==> Abs(Signed(radius)) >= SIDE_LIMIT
  {
    assert x + radius == (x + radius) % WORD || x + radius == (x + radius) % WORD + WORD;
  }

  lemma SumOfWords(x: nat, radius: nat, limit: nat)
    requires x < WORD && radius < WORD && limit <= SIDE_LIMIT
    requires (x + radius) % WORD < limit && (x - radius) % WORD < limit
    ensures x < limit || I32 <= x < I32 + limit
  {
    var a, b := (x + radius) % WORD, (x - radius) % WORD;
    assert x + radius == a || x + radius == a + WORD;
    assert x - radius == b || x - radius == b - WORD;
  }

  // ---------------------------------------------------------------- painting

  class Graphics {
    const width: nat
    const height: nat
    const buffer: array<Color>

    ghost predicate Valid()
      reads this
    {
      && 0 < width <= SIDE_LIMIT && 0 < height <= SIDE_LIMIT && width * height <= I32
      && buffer.Length == width * height
    }

    constructor (width: nat, height: nat)
      requires 0 < width <= SIDE_LIMIT && 0 < height <= SIDE_LIMIT && width * height <= I32
      ensures Valid() && this.width == width && this.height == height
    {
      this.width, this.height := width, height;
      buffer := new Color[width * height];
    }

    /** Writes one pixel.  Sums of 32-bit words that end up on the screen are exact, however they got there. */
    method Plot(x: int, y: int, color: Color, ghost was: seq<Color>, ghost points: set<Point>)
      returns (ghost points': set<Point>)
      requires Valid() && On(width, height, (x, y))
      requires |was| == buffer.Length && Painted(buffer[..], was, width, height, points, color)
      modifies buffer
      ensures points' == points + {(x, y)} && Painted(buffer[..], was, width, height, points', color)
    {
      PaintOne(buffer[..], was, width, height, points, color, (x, y));
      IndexInside(width, height, (x, y));
      hide Painted;
      points' := points + {(x, y)};
      buffer[(width * y + x) % WORD] := color;
      assert buffer[..] == old(buffer[..])[Index(width, (x, y)) := color];
    }

    /** Writes one pixel where the code does not know that it is on the screen; `ok` is whether the write is
        inside the buffer. */
    method TryPlot(x: int, y: int, color: Color, ghost was: seq<Color>, ghost points: set<Point>)
      returns (ok: bool, ghost points': set<Point>)
      requires Valid() && |was| == buffer.Length
      modifies buffer
      ensures ok <==> (width * y + x) % WORD < width * height
      ensures On(width, height, (x, y)) && old(Painted(buffer[..], was, width, height, points, color)) ==>
        ok && points' == points + {(x, y)} && Painted(buffer[..], was, width, height, points', color)
    {
      points' := points + {(x, y)};
      if On(width, height, (x, y)) && Painted(buffer[..], was, width, height, points, color) {
        PaintOne(buffer[..], was, width, height, points, color, (x, y));
        IndexInside(width, height, (x, y));
      }
      hide Painted;
      var index := (width * y + x) % WORD;
      ok := index < buffer.Length;
      if ok {
        buffer[index] := color;
        assert buffer[..] == old(buffer[..])[index := color];
      }
    }

    method DrawLine(x1: nat, y1: nat, x2: nat, y2: nat, color: Color)
      requires Valid() && x1 < WORD && y1 < WORD && x2 < WORD && y2 < WORD
      modifies buffer
      ensures if On(width, height, (x1, y1)) && On(width, height, (x2, y2)) then
          Painted(buffer[..], old(buffer[..]), width, height, LinePoints(x1, y1, x2, y2, Length(x1, y1, x2, y2)), color)
        else buffer[..] == old(buffer[..])
    {
      hide Painted, Left, LinePoint, LinePoints, On, Min, Max, Sign, Length, Rounded;
      OnMeans(width, height, (x1, y1));
      OnMeans(width, height, (x2, y2));
      if x1 >= width || y1 >= height || x2 >= width || y2 >= height { return; }
      var dx, dy := x2 - x1, y2 - y1;
      var dxabs: int := if dx > 0 then dx else 0 - dx;
      var dyabs: int := if dy > 0 then dy else 0 - dy;
      var sgndx, sgndy := if dx > 0 then 1 else -1, if dy > 0 then 1 else -1;
      var x: int, y: int := dyabs / 2, dxabs / 2;
      var nx: int, ny: int := x1, y1;
      ghost var was, points := buffer[..], {};
      NotPainted(was, width, height, color);
      LineStart(x1, y1, x2, y2);
      points := Plot(nx, ny, color, was, points);
      if dxabs >= dyabs {
        for n := 0 to dxabs
          invariant |buffer[..]| == |was| && Painted(buffer[..], was, width, height, points, color)
          invariant points == LinePoints(x1, y1, x2, y2, n)
          invariant (nx, ny) == LinePoint(x1, y1, x2, y2, n)
          invariant 0 <= y && (dxabs > 0 ==> y == Left(n, dyabs, dxabs))
        {
          LineGoesOn(width, height, x1, y1, x2, y2, n);
          y := y + dyabs;
          assert y < I32;
          if y >= dxabs {
            y := y - dxabs;
            ny := ny + sgndy;
          }
          nx := nx + sgndx;
          points := Plot(nx, ny, color, was, points);
        }
      } else {
        for n := 0 to dyabs
          invariant |buffer[..]| == |was| && Painted(buffer[..], was, width, height, points, color)
          invariant points == LinePoints(x1, y1, x2, y2, n)
          invariant (nx, ny) == LinePoint(x1, y1, x2, y2, n)
          invariant 0 <= x && x == Left(n, dxabs, dyabs)
        {
          LineGoesOn(width, height, x1, y1, x2, y2, n);
          x := x + dxabs;
          assert x < I32;
          if x >= dyabs {
            x := x - dyabs;
            nx := nx + sgndx;
          }
          ny := ny + sgndy;
          points := Plot(nx, ny, color, was, points);
        }
      }
    }

    /** A point and its three mirror images. */
    method PlotFour(nx: int, ny: int, x: int, y: int, color: Color, ghost was: seq<Color>, ghost points: set<Point>)
      returns (ghost points': set<Point>)
      requires Valid() && Fits(width, height, nx, ny, Max(Abs(x), Abs(y)))
      requires |was| == buffer.Length && Painted(buffer[..], was, width, height, points, color)
      modifies buffer
      ensures points' == points + Four(nx, ny, x, y) && Painted(buffer[..], was, width, height, points', color)
    {
      hide Painted;
      points' := Plot(nx + x, ny + y, color, was, points);
      points' := Plot(nx - x, ny + y, color, was, points');
      points' := Plot(nx + x, ny - y, color, was, points');
      points' := Plot(nx - x, ny - y, color, was, points');
    }

    /** `fault` is whether the code writes outside of the buffer: the centre is off the screen, and the check
        does not notice. */
    method DrawCircleOutline(nx: nat, ny: nat, radius: nat, color: Color) returns (fault: bool)
      requires Valid() && nx < WORD && ny < WORD && radius < WORD
      modifies buffer
      ensures fault <==> InBounds(width, height, nx, ny, radius) && !On(width, height, (nx, ny))
      ensures !fault ==> if InBounds(width, height, nx, ny, radius) then
          Painted(buffer[..], old(buffer[..]), width, height, CirclePoints(nx, ny, Signed(radius)), color)
        else buffer[..] == old(buffer[..])
    {
      hide Painted, Arc, Ring, FirstRows, CirclePoints, Error, NoArc, InBounds, Mirrors, Four, Signed;
      fault := false;
      var bad := OutOfBounds(nx, ny, radius);
      if bad { return; }
      TopmostOff(width, height, nx, ny, radius);
      if nx < width && ny < height { CheckedInside(width, height, nx, ny, radius); }
      SignedZero(radius);
      var x: int := Signed(radius);
      ghost var r, was, points := x, buffer[..], {};
      NotPainted(was, width, height, color);
      var ok;
      ok, points := TryPlot(nx + x, ny, color, was, points);
      if !ok { return true; }
      if radius > 0 {
        ok, points := TryPlot(nx, ny - x, color, was, points);
        if !ok { return true; }
        points := Plot(nx - x, ny, color, was, points);
        points := Plot(nx, ny + x, color, was, points);
      }
      assert points == Cross(nx, ny, r);
      if r >= 0 { FirstRow(points, nx, ny, r); } else { CrossOnly(nx, ny, r); }
      var p, y: int := 1 - x, 0;
      while x > y
        invariant |buffer[..]| == |was| && Painted(buffer[..], was, width, height, points, color)
        invariant x <= r && 0 <= y
        invariant r < 0 ==> points == CirclePoints(nx, ny, r)
        invariant r >= 0 ==> y <= x && Arc(r, x, y) && FirstRows(points, nx, ny, r, y) && p == Error(r, x, y)
      {
        CircleGoesOn(points, nx, ny, r, x, y);
        y := y + 1;
        if p <= 0 {
          p := p + 2 * y + 1;
        } else {
          x := x - 1;
          p := p + 2 * y - 2 * x + 1;
        }
        assert -I32 <= p < I32;
        if x < y { return; }
        MirrorsInTurn(points, nx, ny, x, y);
        points := PlotFour(nx, ny, x, y, color, was, points);
        if x != y {
          points := PlotFour(nx, ny, y, x, color, was, points);
        }
      }
      if r >= 0 { AllRows(points, nx, ny, r, x, y); }
    }

    method OutOfBounds(nx: nat, ny: nat, radius: nat) returns (bad: bool)
      requires nx < WORD && ny < WORD && radius < WORD
      ensures bad == !InBounds(width, height, nx, ny, radius)
    {
      bad := (nx + radius) % WORD >= width || (ny + radius) % WORD >= height
        || (nx - radius) % WORD >= width || (ny - radius) % WORD >= height;
    }
  }

  lemma FirstRow(points: set<Point>, cx: int, cy: int, r: nat)
    requires points == Cross(cx, cy, r)
    ensures Arc(r, r, 0) && FirstRows(points, cx, cy, r, 0) && 1 - r == Error(r, r, 0)
  {
    NoRows(cx, cy, r);
    RowAdded({}, cx, cy, r, r, 0);
    assert points == {} + Mirrors(cx, cy, r, 0);
  }

  lemma MirrorsInTurn(points: set<Point>, cx: int, cy: int, x: int, y: int)
    ensures points + Mirrors(cx, cy, x, y) ==
      if x == y then points + Four(cx, cy, x, y) else points + Four(cx, cy, x, y) + Four(cx, cy, y, x)
  {
  }

  /** What one round of the loop has to do. */
  lemma CircleGoesOn(points: set<Point>, cx: int, cy: int, r: nat, x: nat, y: nat)
    requires Arc(r, x, y) && y < x <= r && FirstRows(points, cx, cy, r, y)
    ensures var p := Error(r, x, y);
      var x' := if p <= 0 then x else x - 1;
      && -2 * r <= p <= 2 * r + 1
      && Error(r, x', y + 1) == p + 2 * (y + 1) + 1 - (if p <= 0 then 0 else 2 * x')
      && (x' < y + 1 ==> points == CirclePoints(cx, cy, r))
      && (y + 1 <= x' ==> Arc(r, x', y + 1) && FirstRows(points + Mirrors(cx, cy, x', y + 1), cx, cy, r, y + 1))
  {
    hide CirclePoints, FirstRows, Arc, Mirrors;
    var x' := if Error(r, x, y) <= 0 then x else x - 1;
    ArcErrorSmall(r, x, y);
    ErrorNext(r, x, y);
    ArcNext(r, x, y);
    hide Error;
    if x' < y + 1 { AllRows(points, cx, cy, r, x, y); } else { RowAdded(points, cx, cy, r, x', y + 1); }
  }

  lemma CrossOnly(cx: int, cy: int, r: int)
    requires r < 0
    ensures CirclePoints(cx, cy, r) == Cross(cx, cy, r)
  {
  }

  lemma OnMeans(width: nat, height: nat, p: Point)
    ensures On(width, height, p) <==> 0 <= p.0 < width && 0 <= p.1 < height
  {
  }

  lemma LineStart(x1: int, y1: int, x2: int, y2: int)
    ensures var dx, dy := Abs(x2 - x1), Abs(y2 - y1);
      && Length(x1, y1, x2, y2) == (if dx >= dy then dx else dy)
      && LinePoints(x1, y1, x2, y2, 0) == {(x1, y1)} && LinePoint(x1, y1, x2, y2, 0) == (x1, y1)
      && (dx >= dy && dx > 0 ==> Left(0, dy, dx) == dx / 2)
      && (dy > dx ==> Left(0, dx, dy) == dy / 2)
  {
    var dx, dy := Abs(x2 - x1), Abs(y2 - y1);
    hide Rounded, LinePoint, Left;
    LineEnds(x1, y1, x2, y2, 0);
    LineGrows(x1, y1, x2, y2, 0);
    if dx >= dy && dx > 0 { RoundedNext(0, dy, dx); }
    if dy > dx { RoundedNext(0, dx, dy); }
  }

  /** What one round of the loop has to do. */
  lemma LineGoesOn(width: nat, height: nat, x1: int, y1: int, x2: int, y2: int, n: nat)
    requires On(width, height, (x1, y1)) && On(width, height, (x2, y2)) && n < Length(x1, y1, x2, y2)
    ensures var dx, dy := Abs(x2 - x1), Abs(y2 - y1);
      var p, q := LinePoint(x1, y1, x2, y2, n), LinePoint(x1, y1, x2, y2, n + 1);
      && On(width, height, q) && LinePoints(x1, y1, x2, y2, n + 1) == LinePoints(x1, y1, x2, y2, n) + {q}
      && dx < width && dy < height
      && if dx >= dy then
           var left := Left(n, dy, dx) + dy;
           && 0 <= left < 2 * dx && q.0 == p.0 + (if x2 - x1 > 0 then 1 else -1)
           && q.1 == p.1 + (if left < dx then 0 else if y2 - y1 > 0 then 1 else -1)
           && Left(n + 1, dy, dx) == if left < dx then left else left - dx
         else
           var left := Left(n, dx, dy) + dx;
           && 0 <= left < 2 * dy && q.1 == p.1 + (if y2 - y1 > 0 then 1 else -1)
           && q.0 == p.0 + (if left < dy then 0 else if x2 - x1 > 0 then 1 else -1)
           && Left(n + 1, dx, dy) == if left < dy then left else left - dy
  {
    var dx, dy := Abs(x2 - x1), Abs(y2 - y1);
    hide Rounded, Left, LinePoint, LinePoints;
    RoundedNext(n, Min(dx, dy), Max(dx, dy));
    LineNext(x1, y1, x2, y2, n);
    LineEnds(x1, y1, x2, y2, n + 1);
    LineGrows(x1, y1, x2, y2, n + 1);
  }
}
