/** The captcha rasteriser of app/core/security/transport.py: a pixel write, a scaled
    glyph blit and a Bresenham line, all working in place on a flat RGB byte buffer.

    A byte of the buffer belongs to the pixel `PixelOf(width, i)`.  Every operation is
    specified by `Recoloured`: exactly the in-image pixels of a set of points take the
    colour, every other byte keeps its value. */
module Raster {
  import opened Bytes

  datatype Point = Point(x: int, y: int)

  datatype Color = Color(r: Byte, g: Byte, b: Byte) {
    function Channel(c: int): Byte
    {
      if c == 0 then r else if c == 1 then g else b
    }
  }

  function Abs(n: int): nat {
    if n < 0 then -n else n
  }

  function Max(a: nat, b: nat): nat {
    if a < b then b else a
  }

  /** The pixel that byte `i` of an image `width` pixels wide belongs to. */
  function PixelOf(width: int, i: nat): Point
    requires width > 0
  {
    Point((i / 3) % width, (i / 3) / width)
  }

  ghost predicate Recoloured(before: seq<Byte>, after: seq<Byte>, width: int,
                             points: iset<Point>, color: Color)
  {
    && |after| == |before|
    && forall i :: 0 <= i < |before| ==>
         after[i] == if width > 0 && PixelOf(width, i) in points then color.Channel(i % 3) else before[i]
  }

  /** The byte range [3n, 3n+3) is exactly the pixel with row-major number n. */
  lemma {:induction false} PixelBytes(width: int, height: int, x: int, y: int, i: nat)
    requires 0 <= x < width && 0 <= y < height
    requires i < width * height * 3
    ensures 0 <= (y * width + x) * 3 <= width * height * 3 - 3
    ensures PixelOf(width, i) == Point(x, y) <==> (y * width + x) * 3 <= i < (y * width + x) * 3 + 3
  {
    RowMajorInside(width, height, x, y);
    RowMajorUnique(width, i / 3, x, y);
  }

  lemma {:induction false} RowMajorInside(width: int, height: int, x: int, y: int)
    requires 0 <= x < width && 0 <= y < height
    ensures 0 <= y * width + x <= width * height - 1
  {
    MulMonotone(y + 1, height, width);
    MulMonotone(0, y, width);
    assert (y + 1) * width == y * width + width;
  }

  lemma {:induction false} RowMajorUnique(width: int, n: nat, x: int, y: int)
    requires 0 <= x < width && 0 <= y
    ensures n % width == x && n / width == y <==> n == y * width + x
  {
    if n == y * width + x {
      DivModUnique(n, width, y, x);
    }
    assert n == (n / width) * width + n % width;
  }

  lemma {:induction false} MulMonotone(a: int, b: int, w: int)
    requires a <= b && w >= 0
    ensures a * w <= b * w
  {
  }

  lemma {:induction false} DivModUnique(n: int, w: int, q: int, r: int)
    requires w > 0 && 0 <= r < w && n == q * w + r
    ensures n / w == q && n % w == r
  {
    var q' := n / w;
    assert n == q' * w + n % w;
    if q' < q {
      MulMonotone(q' + 1, q, w);
    } else if q' > q {
      MulMonotone(q + 1, q', w);
    }
  }

  /** Every byte of the buffer belongs to a pixel inside the image. */
  lemma {:induction false} OutsideOwnsNoByte(width: int, height: int, i: nat)
    requires i < width * height * 3
    requires width > 0 && height >= 0
    ensures 0 <= PixelOf(width, i).x < width && 0 <= PixelOf(width, i).y < height
  {
  }

  /** Outside the image nothing is written: no byte belongs to such a point. */
  method SetPixel(pixels: array<Byte>, width: int, height: int, x: int, y: int, color: Color)
    requires width >= 0 && height >= 0 && pixels.Length == width * height * 3
    modifies pixels
    ensures Recoloured(old(pixels[..]), pixels[..], width, iset{Point(x, y)}, color)
  {
    if x < 0 || x >= width || y < 0 || y >= height {
      forall i: nat | i < pixels.Length && width > 0
        ensures PixelOf(width, i) != Point(x, y)
      {
        OutsideOwnsNoByte(width, height, i);
      }
      return;
    }
    var offset := (y * width + x) * 3;
    forall i: nat | i < pixels.Length
      ensures PixelOf(width, i) == Point(x, y) <==> offset <= i < offset + 3
    {
      PixelBytes(width, height, x, y, i);
    }
    PixelBytes(width, height, x, y, 0);
    pixels[offset] := color.r;
    pixels[offset + 1] := color.g;
    pixels[offset + 2] := color.b;
  }

  /** What recolouring means for the three bytes of a pixel: red, green, blue, in this order. */
  lemma {:induction false} RecolouredPixel(before: seq<Byte>, after: seq<Byte>, width: int, height: int,
          points: iset<Point>, color: Color, x: int, y: int, offset: int)
    requires 0 <= x < width && 0 <= y < height && |before| == width * height * 3
    requires Recoloured(before, after, width, points, color)
    requires offset == (y * width + x) * 3
    ensures 0 <= offset && offset + 3 <= |after| == |before|
    ensures after[offset..offset + 3] ==
            if Point(x, y) in points then [color.r, color.g, color.b] else before[offset..offset + 3]
  {
    RowMajorInside(width, height, x, y);
    PixelBytes(width, height, x, y, offset);
    PixelBytes(width, height, x, y, offset + 1);
    PixelBytes(width, height, x, y, offset + 2);
    assert offset % 3 == 0 && (offset + 1) % 3 == 1 && (offset + 2) % 3 == 2;
  }

  /** Recolouring by one set of points and then by another is recolouring by their union. */
  lemma {:induction false} RecolouredThen(a: seq<Byte>, b: seq<Byte>, c: seq<Byte>, width: int,
                       p: iset<Point>, q: iset<Point>, color: Color)
    requires Recoloured(a, b, width, p, color) && Recoloured(b, c, width, q, color)
    ensures Recoloured(a, c, width, p + q, color)
  {
  }

  // ---- Lines ----

  /** `num / den` rounded to the nearest integer, halves upwards. */
  function Rounded(num: nat, den: nat): nat
    requires den > 0
  {
    (2 * num + den) / (2 * den)
  }

  /** Steps made along the minor axis after `k` of the `major` steps along the major one:
      the ideal height minor * k / major, rounded. */
  function MinorSteps(minor: nat, major: nat, k: nat): nat {
    if major == 0 then 0 else Rounded(minor * k, major)
  }

  function Sign(from: int, to: int): int {
    if from < to then 1 else -1
  }

  function LineSteps(a: Point, b: Point): nat {
    Max(Abs(b.x - a.x), Abs(b.y - a.y))
  }

  /** The k-th point of the line from `a` to `b`: the ideal segment sampled at every integer
      position of its major axis and rounded along the minor one. */
  function LinePoint(a: Point, b: Point, k: nat): Point {
    var dx, dy := Abs(b.x - a.x), Abs(b.y - a.y);
    if dx >= dy then
      Point(a.x + Sign(a.x, b.x) * k, a.y + Sign(a.y, b.y) * MinorSteps(dy, dx, k))
    else
      Point(a.x + Sign(a.x, b.x) * MinorSteps(dx, dy, k), a.y + Sign(a.y, b.y) * k)
  }

  ghost function LinePoints(a: Point, b: Point): iset<Point> {
    iset k: nat | k <= LineSteps(a, b) :: LinePoint(a, b, k)
  }

  /** The remainder of the rounding: `m` is `major` times the signed distance from the ideal. */
  lemma {:induction false} RoundingError(minor: nat, major: nat, k: nat)
    requires major > 0
    ensures var m := major * MinorSteps(minor, major, k) - minor * k;
            0 - major < 2 * m <= major
  {
  }

  /** Different multiples are at least one unit apart. */
  lemma {:induction false} MultiplesApart(unit: nat, a: int, b: int)
    requires a < b
    ensures unit * a + unit <= unit * b
  {
    MulMonotone(a + 1, b, unit);
  }

  lemma {:induction false} RoundingUnique(minor: nat, major: nat, k: nat, q: nat)
    requires major > 0
    requires 0 - major < 2 * (major * q - minor * k) <= major
    ensures MinorSteps(minor, major, k) == q
  {
    var q' := MinorSteps(minor, major, k);
    RoundingError(minor, major, k);
    if q' < q {
      MultiplesApart(major, q', q);
    } else if q' > q {
      MultiplesApart(major, q, q');
    }
  }

  /** One turn of the loop: with error term `e` the major step is always taken, and the minor
      step is taken exactly when the rounded ideal position moves. */
  lemma {:induction false} ErrorTermDecides(minor: nat, major: nat, k: nat)
    requires minor <= major && major > 0
    ensures var q := MinorSteps(minor, major, k);
            var e := major * (1 + q) - minor * (1 + k);
            && 2 * e >= 0 - minor
            && MinorSteps(minor, major, k + 1) == if 2 * e <= major then q + 1 else q
  {
    var q := MinorSteps(minor, major, k);
    var e := major * (1 + q) - minor * (1 + k);
    RoundingError(minor, major, k);
    var m := major * q - minor * k;
    assert major * (1 + q) == major * q + major;
    assert minor * (1 + k) == minor * k + minor;
    assert e == m + major - minor;
    if 2 * e <= major {
      RoundingUnique(minor, major, k + 1, q + 1);
    } else {
      RoundingUnique(minor, major, k + 1, q);
    }
  }

  lemma {:induction false} MinorStepsEnds(minor: nat, major: nat)
    requires minor <= major
    ensures MinorSteps(minor, major, 0) == 0
    ensures MinorSteps(minor, major, major) == minor
  {
    if major > 0 {
      RoundingUnique(minor, major, 0, 0);
      RoundingUnique(minor, major, major, minor);
    }
  }

  lemma {:induction false} MinorStepsBounded(minor: nat, major: nat, k: nat)
    requires minor <= major && k <= major
    ensures MinorSteps(minor, major, k) <= minor
  {
    if major > 0 {
      var q := MinorSteps(minor, major, k);
      RoundingError(minor, major, k);
      ScaledBelow(minor, k, major);
      if q > minor {
        MultiplesApart(major, minor, q);
      }
    }
  }

  lemma {:induction false} ScaledBelow(m: nat, k: nat, n: nat)
    requires k <= n
    ensures m * k <= n * m
  {
    MulMonotone(k, n, m);
  }

  ghost predicate InBox(a: Point, b: Point, p: Point) {
    && (a.x <= p.x <= b.x || b.x <= p.x <= a.x)
    && (a.y <= p.y <= b.y || b.y <= p.y <= a.y)
  }

  /** `p` lies at most half a pixel from the ideal segment, measured along its minor axis: that
      distance is |cross product| divided by the longer of the two extents. */
  ghost predicate WithinHalfPixel(a: Point, b: Point, p: Point) {
    2 * Abs((p.y - a.y) * (b.x - a.x) - (p.x - a.x) * (b.y - a.y)) <= LineSteps(a, b)
  }

  ghost predicate Adjacent8(p: Point, q: Point) {
    p != q && Abs(p.x - q.x) <= 1 && Abs(p.y - q.y) <= 1
  }

  /** Every point of the line is in the box of its ends and within half a pixel of the segment;
      the first and the last one are the ends. */
  lemma {:induction false} LinePointGeometry(a: Point, b: Point, k: nat)
    requires k <= LineSteps(a, b)
    ensures InBox(a, b, LinePoint(a, b, k))
    ensures WithinHalfPixel(a, b, LinePoint(a, b, k))
    ensures k == 0 ==> LinePoint(a, b, k) == a
    ensures k == LineSteps(a, b) ==> LinePoint(a, b, k) == b
  {
    LinePointInBox(a, b, k);
    LinePointNearSegment(a, b, k);
  }

  lemma {:induction false} LinePointInBox(a: Point, b: Point, k: nat)
    requires k <= LineSteps(a, b)
    ensures InBox(a, b, LinePoint(a, b, k))
    ensures k == 0 ==> LinePoint(a, b, k) == a
    ensures k == LineSteps(a, b) ==> LinePoint(a, b, k) == b
  {
    var dx, dy := Abs(b.x - a.x), Abs(b.y - a.y);
    var minor, major := if dx >= dy then dy else dx, LineSteps(a, b);
    MinorStepsBounded(minor, major, k);
    MinorStepsEnds(minor, major);
  }

  lemma {:induction false} LinePointNearSegment(a: Point, b: Point, k: nat)
    requires k <= LineSteps(a, b)
    ensures WithinHalfPixel(a, b, LinePoint(a, b, k))
  {
    var dx, dy, sx, sy := Abs(b.x - a.x), Abs(b.y - a.y), Sign(a.x, b.x), Sign(a.y, b.y);
    if dx > 0 || dy > 0 {
      if dx >= dy {
        RoundingError(dy, dx, k);
        CrossProduct(dx, dy, sx, sy, k, MinorSteps(dy, dx, k));
      } else {
        RoundingError(dx, dy, k);
        CrossProduct(dx, dy, sx, sy, MinorSteps(dx, dy, k), k);
      }
    }
  }

  lemma {:induction false} CrossProduct(dx: nat, dy: nat, sx: int, sy: int, i: int, j: int)
    requires (sx == 1 || sx == -1) && (sy == 1 || sy == -1)
    ensures Abs((sy * j) * (sx * dx) - (sx * i) * (sy * dy)) == Abs(dx * j - dy * i)
  {
  }

  /** Consecutive points touch and no point is plotted twice. */
  lemma {:induction false} LineConnected(a: Point, b: Point, k: nat, l: nat)
    requires k < l <= LineSteps(a, b)
    ensures LinePoint(a, b, k) != LinePoint(a, b, l)
    ensures l == k + 1 ==> Adjacent8(LinePoint(a, b, k), LinePoint(a, b, l))
  {
    var dx, dy := Abs(b.x - a.x), Abs(b.y - a.y);
    if dx >= dy {
      ErrorTermDecides(dy, dx, k);
    } else {
      ErrorTermDecides(dx, dy, k);
    }
  }

  /** The error term in closed form, by the numbers `i` and `j` of x- and y-steps made. */
  function ErrorTerm(dx: nat, dy: nat, i: nat, j: nat): int {
    dx * (1 + j) - dy * (1 + i)
  }

  lemma {:induction false} ErrorTermSteps(dx: nat, dy: nat, i: nat, j: nat)
    ensures ErrorTerm(dx, dy, i + 1, j) == ErrorTerm(dx, dy, i, j) - dy
    ensures ErrorTerm(dx, dy, i, j + 1) == ErrorTerm(dx, dy, i, j) + dx
    ensures ErrorTerm(dx, dy, i + 1, j + 1) == ErrorTerm(dx, dy, i, j) - dy + dx
  {
  }

  /** The error term the loop carries at the k-th point. */
  function LineError(a: Point, b: Point, k: nat): int {
    var dx, dy := Abs(b.x - a.x), Abs(b.y - a.y);
    if dx >= dy then ErrorTerm(dx, dy, k, MinorSteps(dy, dx, k)) else ErrorTerm(dx, dy, MinorSteps(dx, dy, k), k)
  }

  lemma {:induction false} LineErrorStart(a: Point, b: Point)
    ensures LineError(a, b, 0) == Abs(b.x - a.x) - Abs(b.y - a.y)
  {
    var dx, dy := Abs(b.x - a.x), Abs(b.y - a.y);
    MinorStepsEnds(if dx >= dy then dy else dx, Max(dx, dy));
  }

  /** The two tests of the loop, made on the error term of the k-th point, move the point and
      the error term to the next one. */
  lemma {:induction false} LineTurn(a: Point, b: Point, k: nat)
    requires k < LineSteps(a, b)
    ensures Turns(a, b, k)
  {
    if Abs(b.x - a.x) >= Abs(b.y - a.y) {
      FlatTurn(a, b, k);
    } else {
      SteepTurn(a, b, k);
    }
  }

  ghost predicate Turns(a: Point, b: Point, k: nat) {
    var dx, dy, p, e := Abs(b.x - a.x), 0 - Abs(b.y - a.y), LinePoint(a, b, k), LineError(a, b, k);
    && LinePoint(a, b, k + 1).x == (if 2 * e >= dy then p.x + Sign(a.x, b.x) else p.x)
    && LinePoint(a, b, k + 1).y == (if 2 * e <= dx then p.y + Sign(a.y, b.y) else p.y)
    && LineError(a, b, k + 1) == e + (if 2 * e >= dy then dy else 0) + (if 2 * e <= dx then dx else 0)
  }

  lemma {:induction false} FlatTurn(a: Point, b: Point, k: nat)
    requires Abs(b.x - a.x) >= Abs(b.y - a.y) && Abs(b.x - a.x) > 0
    ensures Turns(a, b, k)
  {
    var dx, dy := Abs(b.x - a.x), Abs(b.y - a.y);
    var q := MinorSteps(dy, dx, k);
    SignStep(Sign(a.x, b.x), k);
    SignStep(Sign(a.y, b.y), q);
    ErrorTermDecides(dy, dx, k);
    ErrorTermSteps(dx, dy, k, q);
  }

  lemma {:induction false} SteepTurn(a: Point, b: Point, k: nat)
    requires Abs(b.x - a.x) < Abs(b.y - a.y)
    ensures Turns(a, b, k)
  {
    var dx, dy := Abs(b.x - a.x), Abs(b.y - a.y);
    var q := MinorSteps(dx, dy, k);
    SignStep(Sign(a.x, b.x), q);
    SignStep(Sign(a.y, b.y), k);
    ErrorTermDecides(dx, dy, k);
    ErrorTermSteps(dx, dy, q, k);
  }

  lemma {:induction false} SignStep(s: int, n: nat)
    ensures s * (n + 1) == s * n + s
  {
  }

  ghost function Prefix(a: Point, b: Point, k: nat): iset<Point> {
    iset n: nat | n < k :: LinePoint(a, b, n)
  }

  lemma {:induction false} PlotNext(before: seq<Byte>, mid: seq<Byte>, after: seq<Byte>, width: int, a: Point,
          b: Point, k: nat, color: Color)
    requires Recoloured(before, mid, width, Prefix(a, b, k), color)
    requires Recoloured(mid, after, width, iset{LinePoint(a, b, k)}, color)
    ensures Recoloured(before, after, width, Prefix(a, b, k + 1), color)
  {
  }

  /** The loop stops at the last point and at no earlier one. */
  lemma {:induction false} LineDone(a: Point, b: Point, k: nat)
    requires k <= LineSteps(a, b) && LinePoint(a, b, k) == b
    ensures k == LineSteps(a, b) && LinePoints(a, b) == Prefix(a, b, k + 1)
  {
  }

  lemma {:induction false} LineNotDone(a: Point, b: Point, k: nat)
    requires k <= LineSteps(a, b) && LinePoint(a, b, k) != b
    ensures k < LineSteps(a, b)
  {
    LinePointGeometry(a, b, k);
  }

  /** The loop of the source, for all integer end points: it terminates after exactly
      LineSteps turns, having plotted the points of the rounded segment in order. */
  method DrawLine(pixels: array<Byte>, width: int, height: int, a: Point, b: Point, color: Color)
    returns (ghost plotted: seq<Point>)
    requires width >= 0 && height >= 0 && pixels.Length == width * height * 3
    modifies pixels
    ensures |plotted| == LineSteps(a, b) + 1
    ensures forall n: nat :: n < |plotted| ==> plotted[n] == LinePoint(a, b, n)
    ensures Recoloured(old(pixels[..]), pixels[..], width, LinePoints(a, b), color)
  {
    var x1, y1 := a.x, a.y;
    var dx: int := Abs(b.x - x1);
    var dy := 0 - Abs(b.y - y1);
    var sx := if x1 < b.x then 1 else -1;
    var sy := if y1 < b.y then 1 else -1;
    var error := dx + dy;
    ghost var k: nat := 0;
    plotted := [];
    LinePointGeometry(a, b, 0);
    LineErrorStart(a, b);
    while true
      invariant k <= LineSteps(a, b)
      invariant Point(x1, y1) == LinePoint(a, b, k)
      invariant error == LineError(a, b, k)
      invariant |plotted| == k && forall n: nat :: n < k ==> plotted[n] == LinePoint(a, b, n)
      invariant Recoloured(old(pixels[..]), pixels[..], width, Prefix(a, b, k), color)
      decreases LineSteps(a, b) - k
    {
      Plot(pixels, width, height, x1, y1, color, a, b, k, old(pixels[..]));
      plotted := plotted + [Point(x1, y1)];
      if x1 == b.x && y1 == b.y {
        LineDone(a, b, k);
        break;
      }
      LineNotDone(a, b, k);
      x1, y1, error := NextOnLine(a, b, k, x1, y1, error, sx, sy, dx, dy);
      k := k + 1;
    }
  }

  /** Plots the k-th point of the line. */
  method Plot(pixels: array<Byte>, width: int, height: int, x: int, y: int, color: Color,
              ghost a: Point, ghost b: Point, ghost k: nat, ghost before: seq<Byte>)
    requires width >= 0 && height >= 0 && pixels.Length == width * height * 3 && Point(x, y) == LinePoint(a, b, k)
    requires Recoloured(before, pixels[..], width, Prefix(a, b, k), color)
    modifies pixels
    ensures Recoloured(before, pixels[..], width, Prefix(a, b, k + 1), color)
  {
    ghost var mid := pixels[..];
    SetPixel(pixels, width, height, x, y, color);
    PlotNext(before, mid, pixels[..], width, a, b, k, color);
  }

  /** The two tests at the end of a turn. */
  method NextOnLine(a: Point, b: Point, ghost k: nat, x1: int, y1: int, error: int, sx: int, sy: int, dx: int, dy: int)
    returns (x: int, y: int, error': int)
    requires k < LineSteps(a, b) && Point(x1, y1) == LinePoint(a, b, k) && error == LineError(a, b, k)
    requires sx == Sign(a.x, b.x) && sy == Sign(a.y, b.y) && dx == Abs(b.x - a.x) && dy == 0 - Abs(b.y - a.y)
    ensures Point(x, y) == LinePoint(a, b, k + 1) && error' == LineError(a, b, k + 1)
  {
    x, y, error' := x1, y1, error;
    var e2 := 2 * error;
    LineTurn(a, b, k);
    if e2 >= dy {
      error' := error' + dy;
      x := x + sx;
    }
    if e2 <= dx {
      error' := error' + dx;
      y := y + sy;
    }
  }

  // ---- Glyphs ----

  /** The pixels a glyph covers when drawn at (x, y): those whose cell of the scaled grid is
      present in the glyph and holds '1'. */
  ghost predicate Covers(glyph: seq<string>, x: int, y: int, scale: int, p: Point) {
    && scale > 0 && x <= p.x && y <= p.y
    && var row, column := (p.y - y) / scale, (p.x - x) / scale;
    row < |glyph| && column < |glyph[row]| && glyph[row][column] == '1'
  }

  /** The part of the glyph in the rows above `r` and in the first `c` cells of row `r`. */
  ghost function CoveredBefore(glyph: seq<string>, x: int, y: int, scale: int, r: nat, c: nat): iset<Point> {
    iset p: Point | Covers(glyph, x, y, scale, p) &&
      ((p.y - y) / scale < r || ((p.y - y) / scale == r && (p.x - x) / scale < c))
  }

  /** The square of pixels of one cell, and its first rows and columns. */
  ghost function Square(x: int, y: int, size: int, height: int): iset<Point> {
    iset p: Point | x <= p.x < x + size && y <= p.y < y + height
  }

  lemma {:induction false} CellOf(offset: int, scale: int, n: nat)
    requires scale > 0
    ensures offset >= 0 && offset / scale == n <==> n * scale <= offset < n * scale + scale
  {
    if n * scale <= offset < n * scale + scale {
      DivModUnique(offset, scale, n, offset - n * scale);
    }
  }

  lemma {:induction false} CoveredCell(glyph: seq<string>, x: int, y: int, scale: int, r: nat, c: nat)
    requires r < |glyph| && c < |glyph[r]|
    ensures CoveredBefore(glyph, x, y, scale, r, c + 1) ==
            CoveredBefore(glyph, x, y, scale, r, c) +
            (if glyph[r][c] == '1' then Square(x + c * scale, y + r * scale, scale, scale) else iset{})
  {
    forall p: Point | scale > 0
      ensures p.x - x >= 0 && (p.x - x) / scale == c <==> x + c * scale <= p.x < x + c * scale + scale
      ensures p.y - y >= 0 && (p.y - y) / scale == r <==> y + r * scale <= p.y < y + r * scale + scale
    {
      CellOf(p.x - x, scale, c);
      CellOf(p.y - y, scale, r);
    }
  }

  lemma {:induction false} CoveredRow(glyph: seq<string>, x: int, y: int, scale: int, r: nat)
    requires r < |glyph|
    ensures CoveredBefore(glyph, x, y, scale, r, |glyph[r]|) == CoveredBefore(glyph, x, y, scale, r + 1, 0)
  {
  }

  /** The two inner loops: one enabled cell. */
  method FillCell(pixels: array<Byte>, width: int, height: int, x: int, y: int, scale: int, color: Color)
    requires width >= 0 && height >= 0 && pixels.Length == width * height * 3
    modifies pixels
    ensures Recoloured(old(pixels[..]), pixels[..], width, Square(x, y, scale, scale), color)
  {
    var dy := 0;
    while dy < scale
      invariant 0 <= dy && (dy <= scale || scale < 0)
      invariant Recoloured(old(pixels[..]), pixels[..], width, Square(x, y, scale, dy), color)
    {
      ghost var rowStart := pixels[..];
      var dx := 0;
      while dx < scale
        invariant 0 <= dx <= scale
        invariant Recoloured(rowStart, pixels[..], width, Square(x, y + dy, dx, 1), color)
      {
        ghost var mid := pixels[..];
        SetPixel(pixels, width, height, x + dx, y + dy, color);
        RecolouredThen(rowStart, mid, pixels[..], width, Square(x, y + dy, dx, 1),
                       iset{Point(x + dx, y + dy)}, color);
        assert Square(x, y + dy, dx, 1) + iset{Point(x + dx, y + dy)} == Square(x, y + dy, dx + 1, 1);
        dx := dx + 1;
      }
      RecolouredThen(old(pixels[..]), rowStart, pixels[..], width, Square(x, y, scale, dy),
                     Square(x, y + dy, scale, 1), color);
      assert Square(x, y, scale, dy) + Square(x, y + dy, scale, 1) == Square(x, y, scale, dy + 1);
      dy := dy + 1;
    }
    assert Square(x, y, scale, dy) == Square(x, y, scale, scale);
  }

  ghost function GlyphPoints(glyphs: map<char, seq<string>>, ch: char, x: int, y: int, scale: int): iset<Point> {
    iset p: Point | ch in glyphs && Covers(glyphs[ch], x, y, scale, p)
  }

  lemma {:induction false} CoveredAll(glyphs: map<char, seq<string>>, ch: char, x: int, y: int, scale: int)
    requires ch in glyphs
    ensures CoveredBefore(glyphs[ch], x, y, scale, |glyphs[ch]|, 0) == GlyphPoints(glyphs, ch, x, y, scale)
    ensures CoveredBefore(glyphs[ch], x, y, scale, 0, 0) == iset{}
  {
  }

  lemma {:induction false} FilledCell(before: seq<Byte>, mid: seq<Byte>, after: seq<Byte>, width: int,
                   glyph: seq<string>, x: int, y: int, scale: int, r: nat, c: nat, color: Color)
    requires r < |glyph| && c < |glyph[r]|
    requires Recoloured(before, mid, width, CoveredBefore(glyph, x, y, scale, r, c), color)
    requires if glyph[r][c] == '1'
             then Recoloured(mid, after, width, Square(x + c * scale, y + r * scale, scale, scale), color)
             else after == mid
    ensures Recoloured(before, after, width, CoveredBefore(glyph, x, y, scale, r, c + 1), color)
  {
    CoveredCell(glyph, x, y, scale, r, c);
    if glyph[r][c] == '1' {
      RecolouredThen(before, mid, after, width, CoveredBefore(glyph, x, y, scale, r, c),
                     Square(x + c * scale, y + r * scale, scale, scale), color);
    }
  }

  /** The two outer loops.  A character without a glyph draws nothing; otherwise exactly the
      covered pixels that lie in the image are recoloured. */
  method DrawGlyph(pixels: array<Byte>, width: int, height: int, glyphs: map<char, seq<string>>, ch: char,
                   x: int, y: int, scale: int, color: Color)
    requires width >= 0 && height >= 0 && pixels.Length == width * height * 3
    modifies pixels
    ensures Recoloured(old(pixels[..]), pixels[..], width, GlyphPoints(glyphs, ch, x, y, scale), color)
  {
    if ch !in glyphs || |glyphs[ch]| == 0 {
      return;
    }
    var glyph := glyphs[ch];
    CoveredAll(glyphs, ch, x, y, scale);
    var r := 0;
    while r < |glyph|
      invariant 0 <= r <= |glyph|
      invariant Recoloured(old(pixels[..]), pixels[..], width, CoveredBefore(glyph, x, y, scale, r, 0), color)
    {
      DrawGlyphRow(pixels, width, height, glyph, r, x, y, scale, color, old(pixels[..]));
      r := r + 1;
    }
  }

  method DrawGlyphRow(pixels: array<Byte>, width: int, height: int, glyph: seq<string>, r: nat,
                      x: int, y: int, scale: int, color: Color, ghost before: seq<Byte>)
    requires width >= 0 && height >= 0 && pixels.Length == width * height * 3
    requires r < |glyph|
    requires Recoloured(before, pixels[..], width, CoveredBefore(glyph, x, y, scale, r, 0), color)
    modifies pixels
    ensures Recoloured(before, pixels[..], width, CoveredBefore(glyph, x, y, scale, r + 1, 0), color)
  {
    var row := glyph[r];
    var c := 0;
    while c < |row|
      invariant 0 <= c <= |row|
      invariant Recoloured(before, pixels[..], width, CoveredBefore(glyph, x, y, scale, r, c), color)
    {
      ghost var mid := pixels[..];
      if row[c] == '1' {
        FillCell(pixels, width, height, x + c * scale, y + r * scale, scale, color);
      }
      FilledCell(before, mid, pixels[..], width, glyph, x, y, scale, r, c, color);
      c := c + 1;
    }
    CoveredRow(glyph, x, y, scale, r);
  }
}
