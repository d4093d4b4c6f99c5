/** The line and circle generators of tm_stm32_dma2d_graphic.c. */
module Curves {
  import opened Arithmetic
  import opened Bytes
  import opened FrameBuffers

  datatype Point = Point(x: int, y: int)

  /** All of them are on the screen. */
  predicate AllOnScreen(g: Geometry, points: seq<Point>)
  {
    forall k :: 0 <= k < |points| ==> g.OnScreen(points[k].x, points[k].y)
  }

  function Pixels(g: Geometry, points: seq<Point>): (pixels: seq<(nat, nat)>)
    requires AllOnScreen(g, points)
    ensures |pixels| == |points|
    ensures forall k :: 0 <= k < |pixels| ==> g.OnScreen(pixels[k].0, pixels[k].1)
  {
    seq(|points|, k requires 0 <= k < |points| => (points[k].x, points[k].y))
  }

  lemma OneMorePixel(g: Geometry, buf: seq<uint32>, points: seq<Point>, p: Point, color: uint32)
    requires |buf| == g.height * g.width && AllOnScreen(g, points + [p])
    ensures AllOnScreen(g, points) && g.OnScreen(p.x, p.y)
    ensures Plot(g, buf, Pixels(g, points + [p]), color)
         == Plot(g, buf, Pixels(g, points), color)[g.Address(p.x, p.y) := color]
  {
    assert (points + [p])[|points|] == p && forall k :: 0 <= k < |points| ==> (points + [p])[k] == points[k];
    assert Pixels(g, points + [p])[..|points|] == Pixels(g, points);
  }

  /** Painting one pixel is plotting it. */
  lemma PaintedOne(g: Geometry, before: seq<uint32>, after: seq<uint32>, x: nat, y: nat, color: uint32)
    requires |before| == |after| == g.height * g.width && g.OnScreen(x, y)
    requires Painted(g, before, after, x, y, 1, 1, color)
    ensures after == before[g.Address(x, y) := color]
  {
    assert [(x, y)][..0] == [];
    assert Plot(g, before, [], color) == before;
    PaintedIsPlotted(g, before, after, [(x, y)], x, y, 1, 1, color);
  }

  /** The display the generators draw on, and the pixels they have asked for, in order. */
  class Canvas {
    const display: Display
    const color: uint32
    ghost var plotted: seq<Point>
    ghost const blank: seq<uint32>

    /** As long as all the pixels asked for are on the screen, the frame buffer is the one at
        first with those pixels drawn. */
    ghost predicate Valid()
      reads this, display, display.fb
    {
      && display.Valid() && |blank| == display.geometry.height * display.geometry.width
      && (AllOnScreen(display.geometry, plotted) ==>
            display.fb[..] == Plot(display.geometry, blank, Pixels(display.geometry, plotted), color))
    }

    constructor (d: Display, c: uint32)
      requires d.Valid()
      ensures Valid() && display == d && color == c && plotted == [] && blank == d.fb[..]
    {
      display, color, plotted, blank := d, c, [], d.fb[..];
    }

    /** The inline DrawPixel of the line: a horizontal line of length 1. */
    method DrawPixel(x: int16, y: int16)
      requires Valid()
      modifies this, display`dmaStart, display`dmaWidth, display`dmaHeight, display`dmaColor, display.fb
      ensures Valid() && plotted == old(plotted) + [Point(x, y)]
    {
      hide Painted, Plot, Pixels;
      ghost var g, before := display.geometry, display.fb[..];
      display.DrawHorizontalLine(x, y, 1, color);
      Plotted(Point(x, y), before);
      plotted := plotted + [Point(x, y)];
    }

    /** The pixel of a circle: a vertical line of length 1. */
    method DrawDot(x: int16, y: int16)
      requires Valid()
      modifies this, display`dmaStart, display`dmaWidth, display`dmaHeight, display`dmaColor, display.fb
      ensures Valid() && plotted == old(plotted) + [Point(x, y)]
    {
      hide Painted, Plot, Pixels;
      ghost var g, before := display.geometry, display.fb[..];
      display.DrawVerticalLine(x, y, 1, color);
      Plotted(Point(x, y), before);
      plotted := plotted + [Point(x, y)];
    }

    lemma Plotted(p: Point, before: seq<uint32>)
      requires display.Valid() && |blank| == |before| == display.geometry.height * display.geometry.width
      requires AllOnScreen(display.geometry, plotted) ==>
                 before == Plot(display.geometry, blank, Pixels(display.geometry, plotted), color)
      requires display.geometry.OnScreen(p.x, p.y) ==>
                 Painted(display.geometry, before, display.fb[..], p.x, p.y, 1, 1, color)
      ensures AllOnScreen(display.geometry, plotted + [p]) ==>
                display.fb[..] == Plot(display.geometry, blank, Pixels(display.geometry, plotted + [p]), color)
    {
      hide Painted, Plot, Pixels;
      if AllOnScreen(display.geometry, plotted + [p]) {
        OneMorePixel(display.geometry, blank, plotted, p, color);
        PaintedOne(display.geometry, before, display.fb[..], p.x, p.y, color);
      }
    }
  }

  // ---- Lines --------------------------------------------------------------------

  /** The coordinate `k` steps from `from` in the direction of `to`. */
  function Along(from: int, to: int, k: nat): int { if to >= from then from + k else from - k }

  /** The longer and the shorter of the two distances. */
  function Den(p: Point, q: Point): nat { Max(Abs(q.x - p.x), Abs(q.y - p.y)) }

  function NumAdd(p: Point, q: Point): nat { Min(Abs(q.x - p.x), Abs(q.y - p.y)) }

  predicate Flat(p: Point, q: Point) { Abs(q.x - p.x) >= Abs(q.y - p.y) }

  /** k * add / den, rounded: the steps along the shorter axis before pixel k. */
  function Rounded(den: nat, add: nat, k: nat): nat
    requires den > 0
  {
    var t: nat := k * add;
    (den / 2 + t) / den
  }

  function Minor(p: Point, q: Point, k: nat): nat
  {
    if Den(p, q) == 0 then 0 else Rounded(Den(p, q), NumAdd(p, q), k)
  }

  /** The pixel k steps along the longer axis and m along the shorter. */
  function StepsFrom(p: Point, q: Point, k: nat, m: nat): Point
  {
    if Flat(p, q) then Point(Along(p.x, q.x, k), Along(p.y, q.y, m))
    else Point(Along(p.x, q.x, m), Along(p.y, q.y, k))
  }

  /** Pixel k of the line from p to q, in closed form. */
  function LinePixel(p: Point, q: Point, k: nat): Point
  {
    StepsFrom(p, q, k, Minor(p, q, k))
  }

  function LineTo(p: Point, q: Point, n: nat): (s: seq<Point>)
    ensures |s| == n
  {
    seq(n, k requires 0 <= k => LinePixel(p, q, k))
  }

  /** The whole line: one pixel more than the longer distance. */
  function LinePixels(p: Point, q: Point): seq<Point>
  {
    LineTo(p, q, Den(p, q) + 1)
  }

  lemma LineSoFar(p: Point, q: Point, k: nat)
    ensures LineTo(p, q, k + 1) == LineTo(p, q, k) + [LinePixel(p, q, k)]
    ensures LineTo(p, q, 0) == []
  {
  }

  lemma MinorBounds(den: nat, add: nat, k: nat)
    requires den > 0
    ensures den * Rounded(den, add, k) <= den / 2 + k * add < den * Rounded(den, add, k) + den
  {
  }

  /** Every pixel is within half a pixel of the ideal line, along the shorter axis:
      |m - k * numAdd / den| <= 1/2. */
  lemma WithinHalfAPixel(p: Point, q: Point, k: nat)
    ensures 2 * Abs(Den(p, q) * Minor(p, q, k) - k * NumAdd(p, q)) <= Den(p, q)
  {
    var den := Den(p, q);
    if den > 0 {
      MinorBounds(den, NumAdd(p, q), k);
    } else {
      assert NumAdd(p, q) == 0;
    }
  }

  lemma MinorAt(den: nat, add: nat, k: nat, m: nat)
    requires den > 0 && den * m <= den / 2 + k * add < den * m + den
    ensures Rounded(den, add, k) == m
  {
    var r := Rounded(den, add, k);
    MinorBounds(den, add, k);
    assert den * (r - m) == den * r - den * m;
    Multiples(den, r - m);
  }

  /** The line starts at p and ends exactly at q. */
  lemma EndPoints(p: Point, q: Point)
    ensures LinePixel(p, q, 0) == p
    ensures LinePixel(p, q, Den(p, q)) == q
  {
    var den, add := Den(p, q), NumAdd(p, q);
    if den > 0 {
      assert 0 * add == 0;
      MinorAt(den, add, 0, 0);
      assert den * add == add * den;
      MinorAt(den, add, den, add);
    }
  }

  lemma MinorStep(den: nat, add: nat, k: nat)
    requires 0 < den && add <= den
    ensures Rounded(den, add, k) <= Rounded(den, add, k + 1) <= Rounded(den, add, k) + 1
  {
    hide Rounded;
    var m := Rounded(den, add, k);
    MinorBounds(den, add, k);
    assert (k + 1) * add == k * add + add;
    if den / 2 + (k + 1) * add < den * m + den {
      MinorAt(den, add, k + 1, m);
    } else {
      assert den * (m + 1) == den * m + den;
      MinorAt(den, add, k + 1, m + 1);
    }
  }

  /** Consecutive pixels touch, and none is plotted twice: one axis moves by exactly one,
      the other by at most one. */
  lemma Adjacent(p: Point, q: Point, k: nat)
    requires k < Den(p, q)
    ensures var a, b := LinePixel(p, q, k), LinePixel(p, q, k + 1);
            Max(Abs(b.x - a.x), Abs(b.y - a.y)) == 1
  {
    MinorStep(Den(p, q), NumAdd(p, q), k);
    var m, m' := Minor(p, q, k), Minor(p, q, k + 1);
    assert m' == m || m' == m + 1;
  }

  /** The error term before pixel k. */
  function ErrorTerm(den: nat, add: nat, k: nat): nat
    requires den > 0
  {
    var t: nat := k * add;
    (den / 2 + t) % den
  }

  /** The error term does not overflow before pixel k. */
  predicate NoOverflow(den: nat, add: nat, k: nat)
  {
    forall j: nat :: j < k && den > 0 ==> ErrorTerm(den, add, j) + add <= 32767
  }

  /** The largest error term on the way: the last number below `den` that is den / 2 and so many
      times the greatest common divisor of the two distances. */
  function Peak(den: nat, add: nat): int
    requires den > 0
  {
    var g := Gcd(den, add);
    den - g + den / 2 % g
  }

  /** The lines the 16-bit variables can hold. */
  predicate LineFits(p: Point, q: Point)
  {
    var den, add := Den(p, q), NumAdd(p, q);
    den <= 32766 && (den > 0 ==> Peak(den, add) + add <= 32767)
  }

  lemma TermFactor(h: int, j: int, n: int, w: int, m: int, g: int)
    ensures (h + j * n - w * m) * g == h * g + j * (n * g) - w * (m * g)
  {
    Expand(g, h + j * n, -(w * m));
    Expand(g, h, j * n);
    assert (j * n) * g == j * (n * g) && (w * m) * g == w * (m * g);
  }

  lemma LastBelow(g: int, q: int, m: int, c: int)
    requires g > 0 && c >= 0 && q * g + c < m * g
    ensures q * g <= m * g - g
  {
    Expand(g, m, -q);
    Multiples(g, m - q);
  }

  /** With den and add that many times g, every error term is a multiple of g away from den / 2. */
  lemma TermIsMultiple(den: nat, add: nat, j: nat, g: nat, m: int, n: int)
    requires den > 0 && g > 0 && den == m * g && add == n * g
    ensures ErrorTerm(den, add, j) <= den - g + den / 2 % g
  {
    var t: nat := j * add;
    var e, w := (den / 2 + t) % den, (den / 2 + t) / den;
    var h, c := den / 2 / g, den / 2 % g;
    assert den / 2 + t == w * den + e && den / 2 == h * g + c;
    TermFactor(h, j, n, w, m, g);
    LastBelow(g, h + j * n - w * m, m, c);
  }

  lemma PeakFactor(den: int, add: int, g: int, u: int, v: int, k: int, s: int, j: int) returns (x: int)
    requires u * den + v * add == g && k * v == s * den + j
    ensures j * add == x * den + k * g
  {
    x := -(k * u) - s * add;
    Expand(k, u * den, v * add);
    Expand(add, s * den, j);
    Expand(den, -(k * u), -(s * add));
    assert (u * den) * k == (k * u) * den && (v * add) * k == (k * v) * add;
    assert (s * den) * add == (s * add) * den;
  }

  lemma PeakSteps(den: nat, g: nat, m: int) returns (k: int, peak: nat)
    requires den > 0 && g > 0 && den == m * g
    ensures peak == den - g + den / 2 % g == den / 2 + k * g && peak < den
  {
    var h, c := den / 2 / g, den / 2 % g;
    k := m - 1 - h;
    Multiples(g, m);
    peak := den - g + c;
    Expand(g, m, -1 - h);
    Expand(g, -1, -h);
  }

  lemma Divided(n: int, d: nat) returns (s: int, j: nat)
    requires d > 0
    ensures n == s * d + j && j < d
  {
    s, j := n / d, n % d;
  }

  /** The peak is reached, after j pixels. */
  lemma PeakReached(den: nat, add: nat, g: nat, u: int, v: int, m: int) returns (j: nat)
    requires den > 0 && g > 0 && den == m * g && u * den + v * add == g
    ensures j < den && ErrorTerm(den, add, j) == den - g + den / 2 % g
  {
    var k, peak := PeakSteps(den, g, m);
    var s;
    s, j := Divided(k * v, den);
    var x := PeakFactor(den, add, g, u, v, k, s, j);
    TermIs(den, add, j, x, peak);
  }

  lemma TermIs(den: nat, add: nat, j: nat, x: int, term: nat)
    requires term < den && j * add == x * den + term - den / 2
    ensures ErrorTerm(den, add, j) == term
  {
    UniqueQuotient(den / 2 + j * add, den, x, term);
  }

  lemma PeakExact(den: nat, add: nat)
    requires den > 0
    ensures NoOverflow(den, add, den) <==> Peak(den, add) + add <= 32767
  {
    var u, v, m, n := Bezout(den, add);
    var g := Gcd(den, add);
    var j := PeakReached(den, add, g, u, v, m);
    forall k: nat | k < den
      ensures ErrorTerm(den, add, k) <= Peak(den, add)
    {
      TermIsMultiple(den, add, k, g, m, n);
    }
    hide ErrorTerm, Peak;
    assert ErrorTerm(den, add, j) == Peak(den, add);
  }

  lemma FitsIsNoOverflow(p: Point, q: Point)
    ensures LineFits(p, q) <==> Den(p, q) <= 32766 && NoOverflow(Den(p, q), NumAdd(p, q), Den(p, q))
  {
    hide Peak, ErrorTerm;
    if Den(p, q) > 0 {
      PeakExact(Den(p, q), NumAdd(p, q));
    }
  }

  /** Among them all that are not too long: on every screen of up to 16384 by 16384 pixels. */
  lemma ShortLinesFit(p: Point, q: Point)
    requires Den(p, q) <= 32766 && Den(p, q) + NumAdd(p, q) <= 32768
    ensures LineFits(p, q)
  {
  }

  /** The number of the last pixel, as the source computes it. */
  function LastPixel(p: Point, q: Point): int16
  {
    Max(ToI16(Abs(q.x - p.x)), ToI16(Abs(q.y - p.y)))
  }

  /** The error term of the loop after k pixels and m minor steps. */
  ghost predicate Progress(den: int, add: int, k: int, m: nat, num: int)
  {
    if den == 0 then num == 0 && add == 0
    else 0 <= num < den && 0 <= add <= den && den * m + num == den / 2 + k * add
  }

  lemma ProgressStart(den: nat, add: nat)
    requires add <= den
    ensures Progress(den, add, 0, 0, den / 2)
  {
  }

  lemma ProgressStep(den: nat, add: nat, k: nat, m: nat, num: nat)
    requires Progress(den, add, k, m, num)
    ensures num < Max(den, 1) && add <= den
    ensures num + add >= den ==> Progress(den, add, k + 1, m + 1, num + add - den)
    ensures num + add < den ==> Progress(den, add, k + 1, m, num + add)
  {
  }

  lemma ProgressMinor(den: nat, add: nat, k: nat, m: nat, num: int)
    requires Progress(den, add, k, m, num) && 0 < den && k <= den
    ensures m == Rounded(den, add, k) && m <= add
  {
    hide Rounded;
    MinorAt(den, add, k, m);
    ProductBound(den, add, k);
    assert den * (add + 1) == den * add + den;
    assert den * (m - (add + 1)) == den * m - den * (add + 1);
    Multiples(den, m - (add + 1));
  }

  /** Between two multiples the error term is what is left over. */
  lemma ProgressError(den: nat, add: nat, k: nat, m: nat, num: nat)
    requires Progress(den, add, k, m, num) && 0 < den
    ensures num == ErrorTerm(den, add, k)
  {
    UniqueQuotient(den / 2 + k * add, den, m, num);
  }

  lemma ProductBound(den: nat, add: nat, k: nat)
    requires k <= den
    ensures k * add <= den * add
  {
  }

  /** One step of the two coordinates stays within the 16-bit range. */
  lemma StepInRange(p: Point, q: Point, k: nat, m: nat)
    requires k <= Den(p, q) && m <= NumAdd(p, q)
    ensures var r := StepsFrom(p, q, k, m);
            Min(p.x, q.x) <= r.x <= Max(p.x, q.x) && Min(p.y, q.y) <= r.y <= Max(p.y, q.y)
  {
  }

  /** A pixel reached after k pixels and m minor steps, with the error term `num`. */
  ghost predicate At(p: Point, q: Point, k: nat, m: nat, num: int, x: int, y: int)
  {
    && Progress(Den(p, q), NumAdd(p, q), k, m, num)
    && (k == 0 ==> m == 0)
    && Point(x, y) == StepsFrom(p, q, k, m)
  }

  lemma PixelReached(p: Point, q: Point, k: nat, m: nat, num: int, x: int, y: int)
    requires At(p, q, k, m, num, x, y) && k <= Den(p, q)
    ensures Point(x, y) == LinePixel(p, q, k)
    ensures m <= NumAdd(p, q)
  {
    hide Progress;
    if Den(p, q) > 0 {
      ProgressMinor(Den(p, q), NumAdd(p, q), k, m, num);
    }
  }

  /** An error term that has overflowed misses the step of the shorter axis. */
  lemma StepMissed(p: Point, q: Point, k: nat, m: nat, num: nat, x: int, y: int)
    requires At(p, q, k, m, num, x, y) && k < Den(p, q) <= 32766 && num + NumAdd(p, q) > 32767
    ensures StepsFrom(p, q, k + 1, m) != LinePixel(p, q, k + 1)
    ensures ErrorTerm(Den(p, q), NumAdd(p, q), k) == num < Den(p, q) && m <= NumAdd(p, q)
  {
    hide ErrorTerm, Rounded;
    var den, add := Den(p, q), NumAdd(p, q);
    ProgressStep(den, add, k, m, num);
    ProgressError(den, add, k, m, num);
    ProgressMinor(den, add, k, m, num);
    ProgressMinor(den, add, k + 1, m + 1, num + add - den);
  }

  /** Where the loop is after `k` pixels: `wrong` is the number of a pixel drawn in the wrong
      place, or -1 while all is well. */
  ghost predicate LineState(p: Point, q: Point, drawn: seq<Point>, k: nat, m: nat, num: int, x: int, y: int, wrong: int)
  {
    var den, add := Den(p, q), NumAdd(p, q);
    && |drawn| == k <= den + 1
    && (if wrong < 0 then
          && NoOverflow(den, add, Min(k, den)) && drawn == LineTo(p, q, k)
          && (k <= den ==> At(p, q, k, m, num, x, y) && num >= 0)
        else
          && wrong <= k && wrong <= den && !NoOverflow(den, add, den)
          && (if wrong == k then Point(x, y) else drawn[wrong]) != LinePixel(p, q, wrong))
  }

  lemma LineStateAtFirst(p: Point, q: Point)
    ensures LineState(p, q, [], 0, 0, Den(p, q) / 2, p.x, p.y, -1)
  {
    ProgressStart(Den(p, q), NumAdd(p, q));
    LineSoFar(p, q, 0);
  }

  lemma LineStateAtLast(p: Point, q: Point, drawn: seq<Point>, m: nat, num: int, x: int, y: int, wrong: int)
    requires LineState(p, q, drawn, Den(p, q) + 1, m, num, x, y, wrong) && Den(p, q) <= 32766
    ensures drawn == LinePixels(p, q) <==> LineFits(p, q)
  {
    FitsIsNoOverflow(p, q);
    hide LinePixel, NoOverflow, LineFits;
    if wrong >= 0 {
      assert LinePixels(p, q)[wrong] == LinePixel(p, q, wrong);
    }
  }

  /** The point a round goes on to. */
  function NextPoint(p: Point, q: Point, x: int, y: int, minor: bool): Point
  {
    var dx, dy := Along(0, q.x - p.x, 1), Along(0, q.y - p.y, 1);
    if Flat(p, q) then Point(x + dx, if minor then y + dy else y)
    else Point(if minor then x + dx else x, y + dy)
  }

  lemma NextIsStep(p: Point, q: Point, k: nat, m: nat, minor: bool)
    ensures var r := StepsFrom(p, q, k, m);
            NextPoint(p, q, r.x, r.y, minor) == StepsFrom(p, q, k + 1, if minor then m + 1 else m)
  {
  }

  predicate Representable(p: Point)
  {
    -0x8000 <= p.x < 0x8000 && -0x8000 <= p.y < 0x8000
  }

  /** One round of the loop, on values: `sum` is the error term with numadd added, in 16 bits. */
  lemma LineRound(p: Point, q: Point, drawn: seq<Point>, k: nat, m: nat, num: int16, x: int16, y: int16, wrong: int,
                  sum: int16, next: Point)
    returns (m': nat, wrong': int)
    requires LineState(p, q, drawn, k, m, num, x, y, wrong) && k <= Den(p, q) <= 32766
    requires Representable(p) && Representable(q)
    requires sum == ToI16(num + NumAdd(p, q))
    requires var n := NextPoint(p, q, x, y, sum >= Den(p, q)); next == Point(ToI16(n.x), ToI16(n.y))
    ensures LineState(p, q, drawn + [Point(x, y)], k + 1, m',
                      if sum >= Den(p, q) then sum - Den(p, q) else sum, next.x, next.y, wrong')
  {
    hide LinePixel, NoOverflow, LineTo, StepsFrom, ErrorTerm;
    m', wrong' := m, wrong;
    if wrong < 0 {
      m', wrong' := RightRound(p, q, drawn, k, m, num, x, y, sum, next);
    }
  }

  lemma OverflowStep(den: nat, add: nat, k: nat)
    ensures NoOverflow(den, add, k + 1)
            <==> NoOverflow(den, add, k) && (den > 0 ==> ErrorTerm(den, add, k) + add <= 32767)
  {
  }

  lemma OverflowLater(den: nat, add: nat, k: nat, n: nat)
    requires k <= n && NoOverflow(den, add, n)
    ensures NoOverflow(den, add, k)
  {
  }

  lemma RightRound(p: Point, q: Point, drawn: seq<Point>, k: nat, m: nat, num: int16, x: int16, y: int16,
                   sum: int16, next: Point)
    returns (m': nat, wrong': int)
    requires LineState(p, q, drawn, k, m, num, x, y, -1) && k <= Den(p, q) <= 32766
    requires Representable(p) && Representable(q)
    requires sum == ToI16(num + NumAdd(p, q))
    requires var n := NextPoint(p, q, x, y, sum >= Den(p, q)); next == Point(ToI16(n.x), ToI16(n.y))
    ensures LineState(p, q, drawn + [Point(x, y)], k + 1, m',
                      if sum >= Den(p, q) then sum - Den(p, q) else sum, next.x, next.y, wrong')
  {
    hide LinePixel, NoOverflow, LineTo, StepsFrom, At, NextPoint, ToI16;
    var den, add := Den(p, q), NumAdd(p, q);
    m', wrong' := m, -1;
    PixelReached(p, q, k, m, num, x, y);
    LineSoFar(p, q, k);
    if k < den {
      var minor := sum >= den;
      ErrorAt(p, q, k, m, num, x, y);
      if num + add <= 32767 {
        m' := if minor then m + 1 else m;
        RightStep(p, q, k, m, num, x, y, sum, next);
      } else {
        WrongStep(p, q, k, m, num, x, y, sum, next);
        wrong' := k + 1;
      }
    }
  }

  lemma ErrorAt(p: Point, q: Point, k: nat, m: nat, num: nat, x: int, y: int)
    requires At(p, q, k, m, num, x, y) && k < Den(p, q)
    ensures ErrorTerm(Den(p, q), NumAdd(p, q), k) == num && num < Den(p, q)
  {
    hide ErrorTerm;
    ProgressError(Den(p, q), NumAdd(p, q), k, m, num);
  }

  lemma RightStep(p: Point, q: Point, k: nat, m: nat, num: int16, x: int16, y: int16, sum: int16, next: Point)
    requires At(p, q, k, m, num, x, y) && num >= 0 && k < Den(p, q) <= 32766 && Representable(p) && Representable(q)
    requires sum == num + NumAdd(p, q) && NoOverflow(Den(p, q), NumAdd(p, q), k)
    requires var n := NextPoint(p, q, x, y, sum >= Den(p, q)); next == Point(ToI16(n.x), ToI16(n.y))
    ensures NoOverflow(Den(p, q), NumAdd(p, q), k + 1)
    ensures var minor := sum >= Den(p, q);
            At(p, q, k + 1, if minor then m + 1 else m, if minor then sum - Den(p, q) else sum, next.x, next.y)
  {
    hide NoOverflow, StepsFrom, ErrorTerm, Progress, NextPoint;
    var den, add, minor := Den(p, q), NumAdd(p, q), sum >= Den(p, q);
    var m', num' := if minor then m + 1 else m, if minor then sum - den else sum;
    ErrorAt(p, q, k, m, num, x, y);
    OverflowStep(den, add, k);
    ProgressStep(den, add, k, m, num);
    ProgressMinor(den, add, k + 1, m', num');
    NextIsStep(p, q, k, m, minor);
    StepInRange(p, q, k + 1, m');
  }

  lemma WrongStep(p: Point, q: Point, k: nat, m: nat, num: int16, x: int16, y: int16, sum: int16, next: Point)
    requires At(p, q, k, m, num, x, y) && num >= 0 && k < Den(p, q) <= 32766 && Representable(p) && Representable(q)
    requires num + NumAdd(p, q) > 32767 && sum == ToI16(num + NumAdd(p, q))
    requires var n := NextPoint(p, q, x, y, sum >= Den(p, q)); next == Point(ToI16(n.x), ToI16(n.y))
    ensures sum < Den(p, q) && next != LinePixel(p, q, k + 1)
    ensures !NoOverflow(Den(p, q), NumAdd(p, q), Den(p, q))
  {
    hide NoOverflow, StepsFrom, ErrorTerm, NextPoint, LinePixel, Progress;
    var den, add := Den(p, q), NumAdd(p, q);
    StepMissed(p, q, k, m, num, x, y);
    NextIsStep(p, q, k, m, false);
    StepInRange(p, q, k + 1, m);
    OverflowStep(den, add, k);
    if NoOverflow(den, add, den) {
      OverflowLater(den, add, k + 1, den);
    }
  }

  /** The loop of DrawLine, with the 16-bit variables it is given. */
  method LineLoop(canvas: Canvas, ghost p: Point, ghost q: Point, x1: int16, y1: int16,
                  xinc1: int, xinc2: int, yinc1: int, yinc2: int, den: int16, numadd: int16)
    returns (ghost drawn: seq<Point>)
    requires canvas.Valid() && den != 32767
    requires p == Point(x1, y1) && Representable(q)
    requires Den(p, q) <= 32766 ==>
               && den == Den(p, q) && numadd == NumAdd(p, q)
               && Point(xinc2, yinc2) == NextPoint(p, q, 0, 0, false)
               && Point(xinc1 + xinc2, yinc1 + yinc2) == NextPoint(p, q, 0, 0, true)
               && -1 <= xinc1 <= 1 && -1 <= xinc2 <= 1 && -1 <= yinc1 <= 1 && -1 <= yinc2 <= 1
    modifies canvas, canvas.display`dmaStart, canvas.display`dmaWidth, canvas.display`dmaHeight,
             canvas.display`dmaColor, canvas.display.fb
    ensures canvas.Valid() && canvas.plotted == old(canvas.plotted) + drawn
    ensures |drawn| == Max(0, den + 1)
    ensures Den(p, q) <= 32766 ==> (drawn == LinePixels(p, q) <==> LineFits(p, q))
  {
    hide Canvas.Valid, LineState, LineFits, LinePixels, NextPoint;
    var d: int := den;
    var x: int16, y: int16, num: int16 := x1, y1, if d >= 0 then d / 2 else -(-d / 2);
    var curpixel: int16 := 0;
    ghost var m: nat, wrong := 0, -1;
    drawn := [];
    LineStateAtFirst(p, q);
    while curpixel <= den
      invariant 0 <= curpixel <= Max(0, den + 1)
      invariant canvas.Valid() && canvas.plotted == old(canvas.plotted) + drawn && |drawn| == curpixel
      invariant Den(p, q) <= 32766 ==> LineState(p, q, drawn, curpixel, m, num, x, y, wrong)
      decreases den - curpixel
    {
      ghost var num', x', y' := num, x, y;
      canvas.DrawPixel(x, y);
      num := ToI16(num + numadd);
      ghost var sum := num;
      if num >= den {
        num := ToI16(num - den);
        x, y := ToI16(x + xinc1), ToI16(y + yinc1);
      }
      x, y := ToI16(x + xinc2), ToI16(y + yinc2);
      if Den(p, q) <= 32766 {
        SameNext(p, q, x', y', xinc1, xinc2, yinc1, yinc2, sum >= den);
        m, wrong := LineRound(p, q, drawn, curpixel, m, num', x', y', wrong, sum, Point(x, y));
      }
      drawn := drawn + [Point(x', y')];
      curpixel := ToI16(curpixel + 1);
    }
    if Den(p, q) <= 32766 {
      LineStateAtLast(p, q, drawn, m, num, x, y, wrong);
    }
  }

  /** Two increments one after the other, in 16 bits, are both at once. */
  lemma SameNext(p: Point, q: Point, x: int16, y: int16, xinc1: int, xinc2: int, yinc1: int, yinc2: int, minor: bool)
    requires Point(xinc2, yinc2) == NextPoint(p, q, 0, 0, false)
    requires Point(xinc1 + xinc2, yinc1 + yinc2) == NextPoint(p, q, 0, 0, true)
    requires -1 <= xinc1 <= 1 && -1 <= yinc1 <= 1
    ensures var n := NextPoint(p, q, x, y, minor);
            && ToI16(ToI16(if minor then x + xinc1 else x) + xinc2) == ToI16(n.x)
            && ToI16(ToI16(if minor then y + yinc1 else y) + yinc2) == ToI16(n.y)
  {
  }

  /** Draws a number of pixels that is right, and in the right places, exactly for the lines the
      16-bit variables can hold. With 32767 for the last pixel the loop would never end. */
  method DrawLine(canvas: Canvas, x1: int16, y1: int16, x2: int16, y2: int16) returns (ghost drawn: seq<Point>)
    requires canvas.Valid() && LastPixel(Point(x1, y1), Point(x2, y2)) != 32767
    modifies canvas, canvas.display`dmaStart, canvas.display`dmaWidth, canvas.display`dmaHeight,
             canvas.display`dmaColor, canvas.display.fb
    ensures canvas.Valid() && canvas.plotted == old(canvas.plotted) + drawn
    ensures drawn == LinePixels(Point(x1, y1), Point(x2, y2)) <==> LineFits(Point(x1, y1), Point(x2, y2))
  {
    hide NoOverflow, Canvas.Valid, LinePixel;
    var deltax: int16, deltay: int16 := ToI16(Abs(x2 - x1)), ToI16(Abs(y2 - y1));
    var xinc1, xinc2 := if x2 >= x1 then 1 else -1, if x2 >= x1 then 1 else -1;
    var yinc1, yinc2 := if y2 >= y1 then 1 else -1, if y2 >= y1 then 1 else -1;
    if deltax >= deltay {
      xinc1, yinc2 := 0, 0;
      drawn := LineLoop(canvas, Point(x1, y1), Point(x2, y2), x1, y1, xinc1, xinc2, yinc1, yinc2, deltax, deltay);
    } else {
      xinc2, yinc1 := 0, 0;
      drawn := LineLoop(canvas, Point(x1, y1), Point(x2, y2), x1, y1, xinc1, xinc2, yinc1, yinc2, deltay, deltax);
    }
  }

  /** A line between two points of the screen stays on it. */
  lemma LineOnScreen(g: Geometry, p: Point, q: Point)
    requires g.OnScreen(p.x, p.y) && g.OnScreen(q.x, q.y)
    ensures AllOnScreen(g, LinePixels(p, q))
  {
    forall k | 0 <= k <= Den(p, q)
      ensures g.OnScreen(LinePixel(p, q, k).x, LinePixel(p, q, k).y)
    {
      MinorAtMost(p, q, k);
      StepInRange(p, q, k, Minor(p, q, k));
    }
  }

  lemma MinorAtMost(p: Point, q: Point, k: nat)
    requires k <= Den(p, q)
    ensures Minor(p, q, k) <= NumAdd(p, q)
  {
    hide Rounded;
    if Den(p, q) > 0 {
      RoundedAtMost(Den(p, q), NumAdd(p, q), k);
    }
  }

  lemma RoundedAtMost(den: nat, add: nat, k: nat)
    requires k <= den && den > 0
    ensures Rounded(den, add, k) <= add
  {
    MinorBounds(den, add, k);
    hide Rounded;
    ProductBound(den, add, k);
    var m := Rounded(den, add, k);
    assert (add + 1) * den == den * add + den;
    if m > add {
      ScaledOrder(add + 1, m, den);
    }
  }

  // ---- Circles --------------------------------------------------------------------

  /** y is the height of the circle of radius r at column x, rounded: compared in squares,
      r^2 - x^2 lies between y^2 - y and y^2 + y. */
  predicate NearCircle(x: int, y: int, r: int)
  {
    x * x + y * y - y <= r * r <= x * x + y * y + y
  }

  /** On its own side of the diagonal the rounding is strict. */
  predicate RoundedTo(x: int, y: int, r: int)
  {
    NearCircle(x, y, r) && (x <= y ==> x * x + y * y - y < r * r)
  }

  /** RoundedTo means: less than half a pixel away from the circle. */
  lemma HalfAPixel(x: nat, y: nat, r: nat, height: real)
    requires RoundedTo(x, y, r) && x <= y
    requires height >= 0.0 && height * height == (r * r - x * x) as real
    ensures y as real - 0.5 < height < y as real + 0.5
  {
    var h := y as real;
    assert h * h == (y * y) as real;
    assert (h + 0.5) * (h + 0.5) == h * h + h + 0.25 > height * height;
    assert (h - 0.5) * (h - 0.5) == h * h - h + 0.25 < height * height;
    SquareOrder(height, h + 0.5);
    if h >= 0.5 {
      SquareOrder(h - 0.5, height);
    }
  }

  lemma SquareOrder(a: real, b: real)
    requires a >= 0.0 && b >= 0.0 && a * a < b * b
    ensures a < b
  {
    assert a >= b ==> a * a >= a * b >= b * b;
  }

  /** What decides between the two candidates for column x + 1. */
  function Decision(x: int, y: int, r: int): int
  {
    (x + 1) * (x + 1) + y * y - y - r * r
  }

  /** The next column, one pixel lower when the midpoint test says so. */
  lemma DecisionRounds(r: nat, x: nat, y: nat)
    requires RoundedTo(x, y, r) && x < y
    ensures if Decision(x, y, r) >= 0 then RoundedTo(x + 1, y - 1, r) else RoundedTo(x + 1, y, r)
  {
    assert (x + 1) * (x + 1) == x * x + 2 * x + 1;
    assert (y - 1) * (y - 1) == y * y - 2 * y + 1;
  }

  lemma DecisionSteps(x: int, y: int, r: int)
    ensures Decision(x + 1, y, r) == Decision(x, y, r) + 2 * x + 3
    ensures Decision(x, y - 1, r) == Decision(x, y, r) - 2 * y + 2
  {
  }

  lemma ProductOrder(a: nat, b: nat, c: nat, d: nat)
    requires a <= c && b <= d
    ensures a * b <= c * d
  {
    assert a * b <= a * d <= c * d;
  }

  /** If squares are ordered, so are the numbers. */
  lemma RootOrder(a: nat, b: nat)
    requires a * a < b * b
    ensures a < b
  {
    if a >= b {
      ProductOrder(b, b, a, a);
    }
  }

  /** The radii for which the decision never leaves 16 bits. */
  predicate CircleFits(r: nat)
  {
    r <= 16556 || r == 16642 || r == 16643
  }

  lemma DecisionBounds(r: nat, x: nat, y: nat)
    requires RoundedTo(x, y, r) && x < y
    ensures 2 * x + 1 - 2 * y <= Decision(x, y, r) <= 2 * x
    ensures r <= 16643 ==> x <= 16383
  {
    assert (x + 1) * (x + 1) == x * x + 2 * x + 1;
    if r <= 16643 && x >= 16384 {
      ProductOrder(x + 1, x, y, y - 1);
      assert y * (y - 1) == y * y - y && (x + 1) * x == x * x + x;
      ProductOrder(16384, 16384, x, x);
      ProductOrder(r, r, 16643, 16643);
      assert false;
    }
  }

  /** One, two or more pixels down from the top. */
  lemma ColumnsDown(r: nat, x: nat, y: nat)
    requires RoundedTo(x, y, r) && y <= r
    ensures y == r ==> Decision(x, y, r) == (x + 1) * (x + 1) - r
    ensures y == r - 1 ==> r <= x * x && Decision(x, y, r) == (x + 1) * (x + 1) - 3 * r + 2
    ensures y == r - 2 ==> 3 * r - 2 <= x * x && Decision(x, y, r) == (x + 1) * (x + 1) - 5 * r + 6
    ensures y <= r - 3 ==> 5 * r - 6 <= x * x
  {
    assert (r - 1) * (r - 1) == r * r - 2 * r + 1;
    assert (r - 2) * (r - 2) == r * r - 4 * r + 4;
    if y <= r - 3 {
      ProductOrder(y, y + 1, r - 3, r - 2);
      assert y * (y + 1) == y * y + y && (r - 3) * (r - 2) == r * r - 5 * r + 6;
    }
  }

  lemma DecisionFits(r: nat, x: nat, y: nat)
    requires CircleFits(r) && RoundedTo(x, y, r) && x < y <= r
    ensures -32768 <= Decision(x, y, r) <= 32767
  {
    hide RoundedTo, Decision;
    DecisionBounds(r, x, y);
    if r > 16384 {
      ColumnsDown(r, x, y);
      if y == r - 1 {
        RootOrder(128, x);
        if r > 16641 {
          RootOrder(129, x);
        }
        ProductOrder(if r > 16641 then 131 else 130, if r > 16641 then 131 else 130, x + 1, x + 1);
      } else if y == r - 2 {
        RootOrder(221, x);
        if r > 16641 {
          RootOrder(223, x);
        }
        ProductOrder(if r > 16641 then 225 else 223, if r > 16641 then 225 else 223, x + 1, x + 1);
      } else if y <= r - 3 {
        RootOrder(286, x);
      }
    }
  }

  /** Points of an octant: one in each column from 1 on, each next to the one before, each
      on the circle up to rounding, none before the diagonal left out. */
  predicate OctantSoFar(octant: seq<Point>, r: nat)
  {
    forall i :: 0 <= i < |octant| ==>
      && octant[i].x == i + 1
      && RoundedTo(octant[i].x, octant[i].y, r)
      && 0 <= Height(octant, r, i) - octant[i].y <= 1
      && i < Height(octant, r, i)
  }

  /** The whole octant reaches the diagonal. */
  predicate Octant(octant: seq<Point>, r: nat)
  {
    OctantSoFar(octant, r) && |octant| >= Height(octant, r, |octant|)
  }

  lemma OctantGrows(octant: seq<Point>, r: nat, y: int)
    requires OctantSoFar(octant, r) && |octant| < Height(octant, r, |octant|)
    requires RoundedTo(|octant| + 1, y, r) && 0 <= Height(octant, r, |octant|) - y <= 1
    ensures var longer := octant + [Point(|octant| + 1, y)];
            OctantSoFar(longer, r) && Height(longer, r, |longer|) == y
  {
    hide RoundedTo;
    var longer := octant + [Point(|octant| + 1, y)];
    forall i | 0 <= i < |longer|
      ensures longer[i].x == i + 1 && RoundedTo(longer[i].x, longer[i].y, r)
      ensures 0 <= Height(longer, r, i) - longer[i].y <= 1 && i < Height(longer, r, i)
    {
      assert Height(longer, r, i) == Height(octant, r, i);
      assert i < |octant| ==> longer[i] == octant[i];
    }
  }

  lemma MirrorsGrow(octant: seq<Point>, x: int, y: int, x0: int, y0: int, before: seq<Point>)
    ensures before + AllMirrored(x0, y0, octant + [Point(x, y)])
         == before + AllMirrored(x0, y0, octant) + Mirrored(x0, y0, x, y)
  {
    hide Mirrored;
    assert (octant + [Point(x, y)])[..|octant|] == octant;
  }

  /** The height the i-th point of the octant comes down from. */
  function Height(octant: seq<Point>, r: nat, i: nat): int
    requires i <= |octant|
  {
    if i == 0 then r else octant[i - 1].y
  }

  function Shift(x0: int, y0: int, dx: int, dy: int): Point
  {
    Point(ToI16(x0 + dx), ToI16(y0 + dy))
  }

  function Cardinals(x0: int, y0: int, r: int): seq<Point>
  {
    [Shift(x0, y0, 0, r), Shift(x0, y0, 0, -r), Shift(x0, y0, r, 0), Shift(x0, y0, -r, 0)]
  }

  /** A point in all four quadrants. */
  function Quadrants(x0: int, y0: int, x: int, y: int): seq<Point>
  {
    [Shift(x0, y0, x, y), Shift(x0, y0, -x, y), Shift(x0, y0, x, -y), Shift(x0, y0, -x, -y)]
  }

  /** A point of the octant in all eight octants. */
  function Mirrored(x0: int, y0: int, x: int, y: int): seq<Point>
  {
    Quadrants(x0, y0, x, y) + Quadrants(x0, y0, y, x)
  }

  function AllMirrored(x0: int, y0: int, octant: seq<Point>): seq<Point>
  {
    if octant == [] then []
    else
      var last := |octant| - 1;
      AllMirrored(x0, y0, octant[..last]) + Mirrored(x0, y0, octant[last].x, octant[last].y)
  }

  method DrawShifted(canvas: Canvas, x: int, y: int)
    requires canvas.Valid()
    modifies canvas, canvas.display`dmaStart, canvas.display`dmaWidth, canvas.display`dmaHeight,
             canvas.display`dmaColor, canvas.display.fb
    ensures canvas.Valid() && canvas.plotted == old(canvas.plotted) + [Point(ToI16(x), ToI16(y))]
  {
    canvas.DrawDot(ToI16(x), ToI16(y));
  }

  method DrawQuadrants(canvas: Canvas, x0: uint16, y0: uint16, x: int16, y: int16)
    requires canvas.Valid()
    modifies canvas, canvas.display`dmaStart, canvas.display`dmaWidth, canvas.display`dmaHeight,
             canvas.display`dmaColor, canvas.display.fb
    ensures canvas.Valid() && canvas.plotted == old(canvas.plotted) + Quadrants(x0, y0, x, y)
  {
    hide Canvas.Valid, ToI16;
    DrawShifted(canvas, x0 + x, y0 + y);
    DrawShifted(canvas, x0 - x, y0 + y);
    DrawShifted(canvas, x0 + x, y0 - y);
    DrawShifted(canvas, x0 - x, y0 - y);
  }

  method DrawMirrored(canvas: Canvas, x0: uint16, y0: uint16, x: int16, y: int16)
    requires canvas.Valid()
    modifies canvas, canvas.display`dmaStart, canvas.display`dmaWidth, canvas.display`dmaHeight,
             canvas.display`dmaColor, canvas.display.fb
    ensures canvas.Valid() && canvas.plotted == old(canvas.plotted) + Mirrored(x0, y0, x, y)
  {
    hide Quadrants, Canvas.Valid;
    DrawQuadrants(canvas, x0, y0, x, y);
    DrawQuadrants(canvas, x0, y0, y, x);
  }

  method DrawCardinals(canvas: Canvas, x0: uint16, y0: uint16, r: uint16)
    requires canvas.Valid()
    modifies canvas, canvas.display`dmaStart, canvas.display`dmaWidth, canvas.display`dmaHeight,
             canvas.display`dmaColor, canvas.display.fb
    ensures canvas.Valid() && canvas.plotted == old(canvas.plotted) + Cardinals(x0, y0, r)
  {
    hide Canvas.Valid, ToI16;
    DrawShifted(canvas, x0, y0 + r);
    DrawShifted(canvas, x0, y0 - r);
    DrawShifted(canvas, x0 + r, y0);
    DrawShifted(canvas, x0 - r, y0);
  }

  // ---- What a circle is -------------------------------------------------------------

  /** The point is half a pixel from the circle at most, in its column or in its row. */
  predicate OnCircle(p: Point, x0: int, y0: int, r: int)
  {
    var dx, dy := Abs(p.x - x0), Abs(p.y - y0);
    NearCircle(dx, dy, r) || NearCircle(dy, dx, r)
  }

  /** The points are those of a circle: all of them on it; the same ones left and right of the
      centre, above and below it, and with the two distances exchanged; the four on the axes; and
      in every column up to the diagonal the rounded one. */
  ghost predicate IsCircle(points: seq<Point>, x0: int, y0: int, r: nat)
  {
    && (forall p :: p in points ==> OnCircle(p, x0, y0, r))
    && (forall p :: p in points ==>
          && Point(2 * x0 - p.x, p.y) in points && Point(p.x, 2 * y0 - p.y) in points
          && Point(x0 + (p.y - y0), y0 + (p.x - x0)) in points)
    && Point(x0 + r, y0) in points && Point(x0 - r, y0) in points
    && Point(x0, y0 + r) in points && Point(x0, y0 - r) in points
    && (forall x: nat, y: nat :: x <= y && RoundedTo(x, y, r) ==>
          && Point(x0 + x, y0 + y) in points && Point(x0 - x, y0 + y) in points
          && Point(x0 + x, y0 - y) in points && Point(x0 - x, y0 - y) in points)
  }

  /** No coordinate of the circle leaves 16 bits. */
  predicate Unwrapped(x0: nat, y0: nat, r: nat)
  {
    x0 + r <= 32767 && y0 + r <= 32767
  }

  /** The distances from the centre are x and y, in either order. */
  predicate MirrorOf(p: Point, x0: int, y0: int, x: int, y: int)
  {
    var dx, dy := Abs(p.x - x0), Abs(p.y - y0);
    (dx == x && dy == y) || (dx == y && dy == x)
  }

  predicate InSquare(octant: seq<Point>, r: nat)
  {
    forall i :: 0 <= i < |octant| ==> 0 <= octant[i].x <= r && 0 <= octant[i].y <= r
  }

  lemma ShiftStays(x0: nat, y0: nat, r: int, dx: int, dy: int)
    requires 0 <= r && Unwrapped(x0, y0, r) && -r <= dx <= r && -r <= dy <= r
    ensures Shift(x0, y0, dx, dy) == Point(x0 + dx, y0 + dy)
  {
  }

  lemma MirroredIs(x0: nat, y0: nat, r: nat, x: nat, y: nat, p: Point)
    requires Unwrapped(x0, y0, r) && x <= r && y <= r
    ensures p in Mirrored(x0, y0, x, y) <==> MirrorOf(p, x0, y0, x, y)
  {
    QuadrantsAre(x0, y0, r, x, y, p);
    QuadrantsAre(x0, y0, r, y, x, p);
  }

  lemma QuadrantsAre(x0: nat, y0: nat, r: nat, x: int, y: int, p: Point)
    requires Unwrapped(x0, y0, r) && 0 <= x <= r && 0 <= y <= r
    ensures p in Quadrants(x0, y0, x, y) <==> Abs(p.x - x0) == x && Abs(p.y - y0) == y
  {
    ShiftStays(x0, y0, r, x, y);
    ShiftStays(x0, y0, r, -x, y);
    ShiftStays(x0, y0, r, x, -y);
    ShiftStays(x0, y0, r, -x, -y);
    hide Shift;
    assert Quadrants(x0, y0, x, y)
        == [Point(x0 + x, y0 + y), Point(x0 - x, y0 + y), Point(x0 + x, y0 - y), Point(x0 - x, y0 - y)];
  }

  lemma CardinalsAre(x0: nat, y0: nat, r: int, p: Point)
    requires r >= 0 && Unwrapped(x0, y0, r)
    ensures p in Cardinals(x0, y0, r) <==> MirrorOf(p, x0, y0, 0, r)
  {
    ShiftStays(x0, y0, r, 0, r);
    ShiftStays(x0, y0, r, 0, -r);
    ShiftStays(x0, y0, r, r, 0);
    ShiftStays(x0, y0, r, -r, 0);
    hide Shift;
    assert Cardinals(x0, y0, r) == [Point(x0, y0 + r), Point(x0, y0 - r), Point(x0 + r, y0), Point(x0 - r, y0)];
  }

  /** The point mirrors one of the octant. */
  ghost predicate Mirrors(p: Point, x0: int, y0: int, octant: seq<Point>)
  {
    exists i :: 0 <= i < |octant| && MirrorOf(p, x0, y0, octant[i].x, octant[i].y)
  }

  lemma {:induction false} AllMirroredAre(x0: nat, y0: nat, r: nat, octant: seq<Point>, p: Point)
    requires Unwrapped(x0, y0, r) && InSquare(octant, r)
    ensures p in AllMirrored(x0, y0, octant) <==> Mirrors(p, x0, y0, octant)
  {
    hide MirrorOf, Mirrored;
    if octant != [] {
      var last := |octant| - 1;
      AllMirroredAre(x0, y0, r, octant[..last], p);
      MirroredIs(x0, y0, r, octant[last].x, octant[last].y, p);
      if Mirrors(p, x0, y0, octant) && !MirrorOf(p, x0, y0, octant[last].x, octant[last].y) {
        var i :| 0 <= i < |octant| && MirrorOf(p, x0, y0, octant[i].x, octant[i].y);
        assert octant[..last][i] == octant[i];
      }
      if Mirrors(p, x0, y0, octant[..last]) {
        var i :| 0 <= i < last && MirrorOf(p, x0, y0, octant[..last][i].x, octant[..last][i].y);
        assert octant[..last][i] == octant[i];
      }
    }
  }

  lemma Gap(a: nat, b: nat)
    requires a < b
    ensures a * a + a <= b * b - b
  {
    ProductOrder(a, a + 1, b - 1, b);
    assert a * (a + 1) == a * a + a && (b - 1) * b == b * b - b;
  }

  /** The rounded point of a column is the only one. */
  lemma RoundedOnce(x: nat, y: nat, y': nat, r: nat)
    requires RoundedTo(x, y, r) && x <= y && NearCircle(x, y', r) && (x <= y' ==> RoundedTo(x, y', r))
    ensures y == y'
  {
    if y' < y {
      Gap(y', y);
    } else if y < y' {
      Gap(y, y');
    }
  }

  lemma Farther(x: nat, y: nat, n: nat, h: nat)
    requires h <= n < x <= y
    ensures x * x + y * y - y >= n * n + h * h + h
  {
    ProductOrder(n, n, x, x);
    Gap(h, y);
  }

  /** Past the end of the octant no rounded point lies above the diagonal. */
  lemma BeforeTheDiagonal(x: nat, y: nat, n: nat, h: nat, r: nat)
    requires RoundedTo(x, y, r) && x <= y && NearCircle(n, h, r) && h <= n
    ensures x <= n
  {
    if n < x {
      Farther(x, y, n, h);
    }
  }

  /** The rounded point of every column up to the diagonal is on the axis or in the octant. */
  lemma EveryColumn(octant: seq<Point>, r: nat, x: nat, y: nat)
    requires Octant(octant, r) && InSquare(octant, r) && RoundedTo(x, y, r) && x <= y
    ensures (x == 0 && y == r) || (0 < x <= |octant| && octant[x - 1] == Point(x, y))
  {
    hide RoundedTo, NearCircle;
    LastIsNear(octant, r);
    BeforeTheDiagonal(x, y, |octant|, Height(octant, r, |octant|), r);
    if x == 0 {
      TopIsRounded(y, r);
    } else {
      var p := octant[x - 1];
      assert p.x == x && RoundedTo(p.x, p.y, r);
      RoundedIsNear(x, p.y, r);
      RoundedOnce(x, y, p.y, r);
    }
  }

  lemma LastIsNear(octant: seq<Point>, r: nat)
    requires Octant(octant, r) && InSquare(octant, r)
    ensures Height(octant, r, |octant|) >= 0 && NearCircle(|octant|, Height(octant, r, |octant|), r)
  {
    hide RoundedTo, NearCircle;
    Top(r);
    if octant != [] {
      var p := octant[|octant| - 1];
      assert RoundedTo(p.x, p.y, r);
      RoundedIsNear(p.x, p.y, r);
    }
  }

  lemma Top(r: nat)
    ensures NearCircle(0, r, r) && (r > 0 ==> RoundedTo(0, r, r))
  {
  }

  lemma TopIsRounded(y: nat, r: nat)
    requires RoundedTo(0, y, r)
    ensures y == r
  {
    Top(r);
    if r > 0 {
      RoundedOnce(0, y, r, r);
    } else if y > 0 {
      Gap(0, y);
    }
  }

  lemma RoundedIsNear(x: int, y: int, r: int)
    requires RoundedTo(x, y, r)
    ensures NearCircle(x, y, r)
  {
  }

  ghost predicate Plots(points: seq<Point>, x0: int, y0: int, r: nat, octant: seq<Point>)
  {
    forall p :: p in points <==> MirrorOf(p, x0, y0, 0, r) || Mirrors(p, x0, y0, octant)
  }

  /** The points plotted are those of a circle exactly for the radii that fit. */
  lemma CircleIsCircle(points: seq<Point>, x0: nat, y0: nat, r: nat, octant: seq<Point>)
    requires Plots(points, x0, y0, r, octant) && InSquare(octant, r)
    requires Octant(octant, r) <==> CircleFits(r)
    requires !CircleFits(r) ==> Strays(octant, r)
    ensures IsCircle(points, x0, y0, r) <==> CircleFits(r)
  {
    hide Plots, InSquare, Octant, CircleFits, OnCircle, OffCircle, RoundedTo;
    if CircleFits(r) {
      AllOnCircle(points, x0, y0, r, octant);
      Symmetric(points, x0, y0, r, octant);
      AxesPlotted(points, x0, y0, r, octant);
      ColumnsPlotted(points, x0, y0, r, octant);
    } else {
      var i :| 0 <= i < |octant| && OffCircle(octant[i].x, octant[i].y, r);
      StrayIsPlotted(points, x0, y0, r, octant, i);
    }
  }

  lemma AxesPlotted(points: seq<Point>, x0: nat, y0: nat, r: nat, octant: seq<Point>)
    requires Plots(points, x0, y0, r, octant)
    ensures Point(x0 + r, y0) in points && Point(x0 - r, y0) in points
    ensures Point(x0, y0 + r) in points && Point(x0, y0 - r) in points
  {
    hide Mirrors;
    assert MirrorOf(Point(x0 + r, y0), x0, y0, 0, r) && MirrorOf(Point(x0 - r, y0), x0, y0, 0, r);
    assert MirrorOf(Point(x0, y0 + r), x0, y0, 0, r) && MirrorOf(Point(x0, y0 - r), x0, y0, 0, r);
  }

  lemma StrayIsPlotted(points: seq<Point>, x0: nat, y0: nat, r: nat, octant: seq<Point>, i: nat)
    requires Plots(points, x0, y0, r, octant) && InSquare(octant, r)
    requires i < |octant| && OffCircle(octant[i].x, octant[i].y, r)
    ensures exists p :: p in points && !OnCircle(p, x0, y0, r)
  {
    hide NearCircle;
    var p := Point(x0 + octant[i].x, y0 + octant[i].y);
    assert MirrorOf(p, x0, y0, octant[i].x, octant[i].y);
    assert p in points && !OnCircle(p, x0, y0, r);
  }

  lemma AllOnCircle(points: seq<Point>, x0: nat, y0: nat, r: nat, octant: seq<Point>)
    requires Plots(points, x0, y0, r, octant) && Octant(octant, r)
    ensures forall p :: p in points ==> OnCircle(p, x0, y0, r)
  {
    hide NearCircle;
    forall p | p in points
      ensures OnCircle(p, x0, y0, r)
    {
      if MirrorOf(p, x0, y0, 0, r) {
        Top(r);
      } else {
        var i :| 0 <= i < |octant| && MirrorOf(p, x0, y0, octant[i].x, octant[i].y);
        assert RoundedTo(octant[i].x, octant[i].y, r);
      }
    }
  }

  lemma Symmetric(points: seq<Point>, x0: nat, y0: nat, r: nat, octant: seq<Point>)
    requires Plots(points, x0, y0, r, octant)
    ensures forall p :: p in points ==>
              && Point(2 * x0 - p.x, p.y) in points && Point(p.x, 2 * y0 - p.y) in points
              && Point(x0 + (p.y - y0), y0 + (p.x - x0)) in points
  {
    forall p, q | p in points && (q == Point(2 * x0 - p.x, p.y) || q == Point(p.x, 2 * y0 - p.y)
                                  || q == Point(x0 + (p.y - y0), y0 + (p.x - x0)))
      ensures q in points
    {
      if !MirrorOf(p, x0, y0, 0, r) {
        var i :| 0 <= i < |octant| && MirrorOf(p, x0, y0, octant[i].x, octant[i].y);
        assert MirrorOf(q, x0, y0, octant[i].x, octant[i].y);
      }
    }
  }

  lemma ColumnsPlotted(points: seq<Point>, x0: nat, y0: nat, r: nat, octant: seq<Point>)
    requires Plots(points, x0, y0, r, octant) && Octant(octant, r) && InSquare(octant, r)
    ensures forall x: nat, y: nat :: x <= y && RoundedTo(x, y, r) ==>
              && Point(x0 + x, y0 + y) in points && Point(x0 - x, y0 + y) in points
              && Point(x0 + x, y0 - y) in points && Point(x0 - x, y0 - y) in points
  {
    hide Octant, RoundedTo;
    forall p, x: nat, y: nat | x <= y && RoundedTo(x, y, r) && MirrorOf(p, x0, y0, x, y)
      ensures p in points
    {
      EveryColumn(octant, r, x, y);
    }
    hide Plots, InSquare;
    forall x: nat, y: nat | x <= y && RoundedTo(x, y, r)
      ensures Point(x0 + x, y0 + y) in points && Point(x0 - x, y0 + y) in points
      ensures Point(x0 + x, y0 - y) in points && Point(x0 - x, y0 - y) in points
    {
      assert MirrorOf(Point(x0 + x, y0 + y), x0, y0, x, y) && MirrorOf(Point(x0 - x, y0 + y), x0, y0, x, y);
      assert MirrorOf(Point(x0 + x, y0 - y), x0, y0, x, y) && MirrorOf(Point(x0 - x, y0 - y), x0, y0, x, y);
    }
  }

  /** The square around the circle. */
  predicate SquareOnScreen(g: Geometry, x0: nat, y0: nat, r: nat)
  {
    r <= x0 && r <= y0 && g.OnScreen(x0 + r, y0 + r)
  }

  lemma CircleOnScreen(g: Geometry, points: seq<Point>, x0: nat, y0: nat, r: nat, octant: seq<Point>)
    requires Plots(points, x0, y0, r, octant) && InSquare(octant, r) && SquareOnScreen(g, x0, y0, r)
    ensures AllOnScreen(g, points)
  {
    forall k | 0 <= k < |points|
      ensures g.OnScreen(points[k].x, points[k].y)
    {
      assert points[k] in points;
    }
  }

  lemma DrawnIsPlotted(x0: nat, y0: nat, r: nat, octant: seq<Point>)
    requires Unwrapped(x0, y0, r) && InSquare(octant, r)
    ensures Plots(Cardinals(x0, y0, r) + AllMirrored(x0, y0, octant), x0, y0, r, octant)
  {
    hide Cardinals, AllMirrored, MirrorOf, Mirrors, Unwrapped, InSquare;
    forall p
      ensures p in Cardinals(x0, y0, r) + AllMirrored(x0, y0, octant)
              <==> MirrorOf(p, x0, y0, 0, r) || Mirrors(p, x0, y0, octant)
    {
      CardinalsAre(x0, y0, r, p);
      AllMirroredAre(x0, y0, r, octant, p);
    }
  }

  /** Draws the cardinal points, and in all eight octants the points of one. As long as no coordinate
      wraps around, what is drawn is a circle exactly for the radii whose decision fits 16 bits. */
  method DrawCircle(canvas: Canvas, x0: uint16, y0: uint16, r: uint16)
    returns (ghost drawn: seq<Point>, ghost octant: seq<Point>)
    requires canvas.Valid()
    modifies canvas, canvas.display`dmaStart, canvas.display`dmaWidth, canvas.display`dmaHeight,
             canvas.display`dmaColor, canvas.display.fb
    ensures canvas.Valid()
    ensures canvas.plotted == old(canvas.plotted) + drawn
    ensures Unwrapped(x0, y0, r) ==> (IsCircle(drawn, x0, y0, r) <==> CircleFits(r))
    ensures Unwrapped(x0, y0, r) && SquareOnScreen(canvas.display.geometry, x0, y0, r) ==>
              AllOnScreen(canvas.display.geometry, drawn)
    ensures drawn == Cardinals(x0, y0, r) + AllMirrored(x0, y0, octant)
    ensures Octant(octant, r) <==> CircleFits(r)
  {
    hide Canvas.Valid, IsCircle, Octant, Cardinals, AllMirrored, InSquare, Strays, SquareOnScreen, AllOnScreen;
    DrawCardinals(canvas, x0, y0, r);
    octant := CircleLoop(canvas, x0, y0, r);
    drawn := Cardinals(x0, y0, r) + AllMirrored(x0, y0, octant);
    if Unwrapped(x0, y0, r) {
      DrawnIsPlotted(x0, y0, r, octant);
      CircleIsCircle(drawn, x0, y0, r, octant);
      if SquareOnScreen(canvas.display.geometry, x0, y0, r) {
        CircleOnScreen(canvas.display.geometry, drawn, x0, y0, r, octant);
      }
    }
  }

  lemma Wraps(a: int, b: int)
    ensures ToI16(ToI16(a) + b) == ToI16(a + b) && ToI16(a + ToI16(b)) == ToI16(a + b)
  {
    var p, q := (a + 0x8000) / 0x1_0000, (b + 0x8000) / 0x1_0000;
    assert ToI16(a) == a - p * 0x1_0000 && ToI16(b) == b - q * 0x1_0000;
    hide ToI16;
    WholeTurns(a + b, -p);
    WholeTurns(a + b, -q);
  }

  lemma WholeTurns(n: int, k: int)
    ensures ToI16(n + k * 0x1_0000) == ToI16(n)
  {
    var m := n + 0x8000;
    UniqueQuotient(m + k * 0x1_0000, 0x1_0000, m / 0x1_0000 + k, m % 0x1_0000);
  }

  /** The midpoint step, in 16-bit arithmetic: the variables stay what they stand for, modulo
      2^16. */
  method CircleStep(ghost r: nat, x: int16, y: int16, f: int16, ddFx: int16, ddFy: int16)
    returns (x': int16, y': int16, f': int16, ddFx': int16, ddFy': int16)
    requires 0 <= x < y
    requires f == ToI16(Decision(x, y, r)) && ddFx == ToI16(2 * x + 1) && ddFy == ToI16(-2 * y)
    ensures x' == x + 1 && y' == if f >= 0 then y - 1 else y
    ensures f' == ToI16(Decision(x', y', r)) && ddFx' == ToI16(2 * x' + 1) && ddFy' == ToI16(-2 * y')
  {
    hide Decision, ToI16;
    x', y', f', ddFx', ddFy' := x, y, f, ddFx, ddFy;
    if f' >= 0 {
      StepDown(x, y, r);
      y' := y' - 1;
      ddFy' := ToI16(ddFy' + 2);
      f' := ToI16(f' + ddFy');
    }
    StepAside(x, y', r);
    x' := x' + 1;
    ddFx' := ToI16(ddFx' + 2);
    f' := ToI16(f' + ddFx');
  }

  lemma StepDown(x: int, y: int, r: int)
    ensures ToI16(ToI16(-2 * y) + 2) == ToI16(-2 * (y - 1))
    ensures ToI16(ToI16(Decision(x, y, r)) + ToI16(-2 * (y - 1))) == ToI16(Decision(x, y - 1, r))
  {
    hide Decision, ToI16;
    Wraps(-2 * y, 2);
    Wraps(Decision(x, y, r), ToI16(-2 * (y - 1)));
    Wraps(Decision(x, y, r), -2 * (y - 1));
    DecisionSteps(x, y, r);
  }

  lemma StepAside(x: int, y: int, r: int)
    ensures ToI16(ToI16(2 * x + 1) + 2) == ToI16(2 * (x + 1) + 1)
    ensures ToI16(ToI16(Decision(x, y, r)) + ToI16(2 * (x + 1) + 1)) == ToI16(Decision(x + 1, y, r))
  {
    hide Decision, ToI16;
    Wraps(2 * x + 1, 2);
    Wraps(Decision(x, y, r), ToI16(2 * (x + 1) + 1));
    Wraps(Decision(x, y, r), 2 * (x + 1) + 1);
    DecisionSteps(x, y, r);
  }

  /** How a radius that does not fit goes wrong: all is well until the circle first comes down a
      pixel; then the decision wraps around, and the next point is off the circle. */
  ghost predicate GoingWrong(octant: seq<Point>, r: nat, x: int, y: int)
  {
    || (y == r && x * x < r)
    || (y == r - 1 && x >= 1 && (x - 1) * (x - 1) < r <= x * x)
    || Strays(octant, r)
  }

  /** A point of the octant is off the circle, whichever of its coordinates is the column. */
  ghost predicate Strays(octant: seq<Point>, r: nat)
  {
    exists i :: 0 <= i < |octant| && OffCircle(octant[i].x, octant[i].y, r)
  }

  predicate OffCircle(x: int, y: int, r: int)
  {
    !NearCircle(x, y, r) && !NearCircle(y, x, r)
  }

  /** Where the loop is. */
  ghost predicate CircleState(octant: seq<Point>, r: nat, x: int, y: int)
  {
    && x == |octant|
    && (if CircleFits(r) then
          OctantSoFar(octant, r) && y == Height(octant, r, |octant|) && RoundedTo(x, y, r) && y <= r
        else GoingWrong(octant, r, x, y))
  }

  lemma CircleStateAtFirst(r: nat)
    requires r >= 1
    ensures CircleState([], r, 0, r)
  {
  }

  lemma CircleRound(octant: seq<Point>, r: nat, x: nat, y: nat, y': nat)
    requires CircleState(octant, r, x, y) && x < y && 1 <= r <= 32767
    requires y' == if ToI16(Decision(x, y, r)) >= 0 then y - 1 else y
    ensures CircleState(octant + [Point(x + 1, y')], r, x + 1, y')
  {
    if CircleFits(r) {
      hide Decision, RoundedTo, OctantSoFar;
      DecisionFits(r, x, y);
      DecisionRounds(r, x, y);
      OctantGrows(octant, r, y');
    } else {
      WrongRound(octant, r, x, y, y');
    }
  }

  lemma WrongRound(octant: seq<Point>, r: nat, x: nat, y: nat, y': nat)
    requires GoingWrong(octant, r, x, y) && !CircleFits(r) && x < y && r <= 32767
    requires y' == if ToI16(Decision(x, y, r)) >= 0 then y - 1 else y
    ensures GoingWrong(octant + [Point(x + 1, y')], r, x + 1, y')
  {
    var longer := octant + [Point(x + 1, y')];
    if i :| 0 <= i < |octant| && OffCircle(octant[i].x, octant[i].y, r) {
      assert longer[i] == octant[i];
    } else if y == r {
      TopDecision(r, x);
    } else {
      SecondDecision(r, x);
      assert longer[|octant|] == Point(x + 1, r - 2);
      OffTheCircle(r, x);
    }
  }

  lemma TopDecision(r: nat, x: nat)
    requires x * x < r <= 32767
    ensures Decision(x, r, r) == (x + 1) * (x + 1) - r && ToI16(Decision(x, r, r)) == Decision(x, r, r)
  {
    if x >= 182 {
      ProductOrder(182, 182, x, x);
      assert false;
    }
    assert (x + 1) * (x + 1) == x * x + 2 * x + 1;
  }

  lemma SecondDecision(r: nat, x: nat)
    requires x >= 1 && (x - 1) * (x - 1) < r <= x * x && !CircleFits(r) && r <= 32767
    ensures Decision(x, r - 1, r) == (x + 1) * (x + 1) - 3 * r + 2
    ensures -65536 <= Decision(x, r - 1, r) < -32768 && ToI16(Decision(x, r - 1, r)) >= 0
  {
    assert (r - 1) * (r - 1) == r * r - 2 * r + 1;
    assert (x + 1) * (x + 1) == (x - 1) * (x - 1) + 4 * x == x * x + 2 * x + 1;
    RootOrder(x - 1, 182);
    if r <= 16641 {
      RootOrder(x - 1, 129);
      ProductOrder(x + 1, x + 1, 130, 130);
    } else if r <= 16900 {
      RootOrder(x - 1, 130);
      ProductOrder(x + 1, x + 1, 131, 131);
    }
  }

  lemma OffTheCircle(r: nat, x: nat)
    requires r >= 100 && (x + 1) * (x + 1) - 3 * r + 2 < 0
    ensures OffCircle(x + 1, r - 2, r)
  {
    assert (r - 2) * (r - 2) == r * r - 4 * r + 4;
    if x + 1 >= r - 2 {
      ProductOrder(r - 2, 98, x + 1, x + 1);
      assert false;
    }
  }

  lemma CircleStateAtLast(octant: seq<Point>, r: nat, x: nat, y: int)
    requires CircleState(octant, r, x, y) && x >= y && 1 <= r <= 32767
    ensures Octant(octant, r) <==> CircleFits(r)
    ensures !CircleFits(r) ==> Strays(octant, r)
  {
    hide RoundedTo, NearCircle;
    if !CircleFits(r) {
      if y == r && x * x < r {
        ProductOrder(r, 1, x, x);
        assert false;
      } else if y == r - 1 && x >= 1 && (x - 1) * (x - 1) < r {
        RootOrder(x - 1, 182);
        assert false;
      } else {
        WrongIsNoOctant(octant, r);
      }
    }
  }

  lemma WrongIsNoOctant(octant: seq<Point>, r: nat)
    requires Strays(octant, r)
    ensures !Octant(octant, r)
  {
  }

  method CircleLoop(canvas: Canvas, x0: uint16, y0: uint16, r: uint16) returns (ghost octant: seq<Point>)
    requires canvas.Valid()
    modifies canvas, canvas.display`dmaStart, canvas.display`dmaWidth, canvas.display`dmaHeight,
             canvas.display`dmaColor, canvas.display.fb
    ensures canvas.Valid() && canvas.plotted == old(canvas.plotted) + AllMirrored(x0, y0, octant)
    ensures Octant(octant, r) <==> CircleFits(r)
    ensures InSquare(octant, r) && (!CircleFits(r) && r <= 32767 ==> Strays(octant, r))
  {
    hide Decision, Mirrored, AllMirrored, CircleState, Octant, Canvas.Valid, CircleFits;
    octant := [];
    NoMirrors(x0, y0);
    var f: int16, ddFx: int16, ddFy: int16 := ToI16(1 - r), 1, ToI16(-2 * r);
    var x: int16, y: int16 := 0, ToI16(r);
    if r == 0 || r > 32767 {
      NoOctant(r);
      return;
    }
    CircleStateAtFirst(r);
    TopOfCircle(r);
    ghost var before := canvas.plotted;
    hide ToI16;
    while x < y
      invariant 0 <= x && y <= r
      invariant CircleState(octant, r, x, y) && InSquare(octant, r)
      invariant f == ToI16(Decision(x, y, r)) && ddFx == ToI16(2 * x + 1) && ddFy == ToI16(-2 * y)
      invariant canvas.Valid() && canvas.plotted == before + AllMirrored(x0, y0, octant)
      decreases y - x
    {
      ghost var y' := y;
      x, y, f, ddFx, ddFy := CircleStep(r, x, y, f, ddFx, ddFy);
      CircleRound(octant, r, x - 1, y', y);
      MirrorsGrow(octant, x, y, x0, y0, before);
      DrawMirrored(canvas, x0, y0, x, y);
      octant := octant + [Point(x, y)];
    }
    CircleStateAtLast(octant, r, x, y);
  }

  lemma NoOctant(r: nat)
    requires r == 0 || r > 32767
    ensures Octant([], r) <==> CircleFits(r)
    ensures InSquare([], r) && (!CircleFits(r) && r <= 32767 ==> Strays([], r))
  {
  }

  lemma TopOfCircle(r: nat)
    ensures Decision(0, r, r) == 1 - r
  {
  }

  lemma NoMirrors(x0: int, y0: int)
    ensures AllMirrored(x0, y0, []) == []
  {
  }
}
