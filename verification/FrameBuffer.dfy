/** The rectangle fills of tm_stm32_dma2d_graphic.c against the pixel address map, in pixel
    units: cell k of the frame buffer is the k-th pixel of the selected layer. */
module FrameBuffers {
  import opened Arithmetic
  import opened Bytes

  /** SetOrientation filters out everything else. */
  type Orientation = o: int | 0 <= o <= 3

  /** The frame-buffer cell of the pixel in column `col` of row `row`. */
  function Cell(width: nat, row: nat, col: nat): nat
  {
    row * width + col
  }

  lemma CellInside(width: nat, height: nat, row: nat, col: nat)
    requires row < height && col < width
    ensures Cell(width, row, col) < height * width
  {
    assert (row + 1) * width <= height * width;
  }

  lemma CellUnique(width: nat, row: nat, col: nat, row': nat, col': nat)
    requires col < width && col' < width && Cell(width, row, col) == Cell(width, row', col')
    ensures row == row' && col == col'
  {
    var d := row - row';
    assert d * width == col' - col;
    Multiples(width, d);
  }

  lemma CellExists(width: nat, height: nat, k: nat) returns (row: nat, col: nat)
    requires k < height * width
    ensures row < height && col < width && k == Cell(width, row, col)
  {
    assert width == 0 ==> height * width == 0;
    row, col := k / width, k % width;
    assert row >= height ==> row * width >= height * width;
  }

  // ---- The pixel address map --------------------------------------------------

  datatype Geometry = Geometry(width: uint16, height: uint16, orientation: Orientation)
  {
    /** The dimensions SetOrientation selects. */
    function CurrentWidth(): uint16
    {
      if orientation <= 1 then width else height
    }

    function CurrentHeight(): uint16
    {
      if orientation <= 1 then height else width
    }

    predicate OnScreen(x: int, y: int)
    {
      0 <= x < CurrentWidth() && 0 <= y < CurrentHeight()
    }

    function Row(x: nat, y: nat): (row: nat)
      requires OnScreen(x, y)
      ensures row < height
    {
      match orientation
      case 1 => y
      case 0 => height - y - 1
      case 3 => x
      case 2 => height - x - 1
    }

    function Col(x: nat, y: nat): (col: nat)
      requires OnScreen(x, y)
      ensures col < width
    {
      match orientation
      case 1 => x
      case 0 => width - x - 1
      case 3 => width - y - 1
      case 2 => y
    }

    /** DrawPixel and GetPixel address the cell `row * width + column`. */
    function Address(x: nat, y: nat): (a: nat)
      requires OnScreen(x, y)
      ensures a < height * width
    {
      CellInside(width, height, Row(x, y), Col(x, y));
      Cell(width, Row(x, y), Col(x, y))
    }

    /** Orientation 1 lays the rows out one after the other; the other three are its rotations by
        half a turn (0), a quarter to the right (3) and a quarter to the left (2). */
    lemma AddressRotates(x: nat, y: nat)
      requires OnScreen(x, y)
      ensures var upright := this.(orientation := 1);
              match orientation
              case 1 => Address(x, y) == y * width + x
              case 0 =>
                && upright.OnScreen(width - 1 - x, height - 1 - y)
                && Address(x, y) == upright.Address(width - 1 - x, height - 1 - y)
              case 3 => upright.OnScreen(width - 1 - y, x) && Address(x, y) == upright.Address(width - 1 - y, x)
              case 2 => upright.OnScreen(y, height - 1 - x) && Address(x, y) == upright.Address(y, height - 1 - x)
    {
    }

    lemma AddressInjective(x: nat, y: nat, x': nat, y': nat)
      requires OnScreen(x, y) && OnScreen(x', y') && Address(x, y) == Address(x', y')
      ensures x == x' && y == y'
    {
      CellUnique(width, Row(x, y), Col(x, y), Row(x', y'), Col(x', y'));
    }

    lemma AddressOnto(k: nat) returns (x: nat, y: nat)
      requires k < height * width
      ensures OnScreen(x, y) && Address(x, y) == k
    {
      var row, col := CellExists(width, height, k);
      match orientation
      case 1 => x, y := col, row;
      case 0 => x, y := width - col - 1, height - row - 1;
      case 3 => x, y := row, width - col - 1;
      case 2 => x, y := height - row - 1, col;
    }
  }

  // ---- Blocks of cells ----------------------------------------------------------

  function RowStart(start: nat, stride: nat, r: nat): nat
  {
    start + r * stride
  }

  /** Cell k is one of `lines` runs of `run` cells, `stride` apart, the first at `start`. */
  ghost predicate InBlock(k: int, start: nat, stride: nat, run: nat, lines: nat)
  {
    exists r: nat :: r < lines && RowStart(start, stride, r) <= k < RowStart(start, stride, r) + run
  }

  lemma NextRow(start: nat, stride: nat, r: nat)
    ensures RowStart(start, stride, r + 1) == RowStart(start, stride, r) + stride
  {
  }

  lemma RowsFit(start: nat, stride: nat, run: nat, r: nat, lines: nat)
    requires r < lines
    ensures RowStart(start, stride, r) + run <= RowStart(start, stride, lines - 1) + run
  {
    assert r * stride <= (lines - 1) * stride;
  }

  lemma OneMoreRow(k: int, start: nat, stride: nat, run: nat, r: nat)
    ensures InBlock(k, start, stride, run, r + 1)
            <==> InBlock(k, start, stride, run, r)
                 || RowStart(start, stride, r) <= k < RowStart(start, stride, r) + run
  {
    if InBlock(k, start, stride, run, r + 1) {
      var q: nat :| q < r + 1 && RowStart(start, stride, q) <= k < RowStart(start, stride, q) + run;
      assert q < r || q == r;
    }
  }

  /** A block that starts in row r0 and column c0 and does not run over the end of a row is
      a rectangle of rows and columns. */
  lemma BlockIsRectangle(width: nat, r0: nat, c0: nat, run: nat, lines: nat, row: nat, col: nat)
    requires c0 + run <= width && col < width
    ensures InBlock(Cell(width, row, col), Cell(width, r0, c0), width, run, lines)
            <==> r0 <= row < r0 + lines && c0 <= col < c0 + run
  {
    hide Cell, RowStart;
    var k, start := Cell(width, row, col), Cell(width, r0, c0);
    forall r: nat | r < lines && RowStart(start, width, r) <= k < RowStart(start, width, r) + run
      ensures row == r0 + r && c0 <= col < c0 + run
    {
      RowOfBlock(width, r0, c0, r);
      CellInRow(width, r0 + r, c0, run, row, col);
    }
    if r0 <= row < r0 + lines && c0 <= col < c0 + run {
      var r: nat := row - r0;
      RowOfBlock(width, r0, c0, r);
      CellInRow(width, row, c0, run, row, col);
      assert RowStart(start, width, r) <= k < RowStart(start, width, r) + run;
    }
  }

  lemma RowOfBlock(width: nat, r0: nat, c0: nat, r: nat)
    ensures RowStart(Cell(width, r0, c0), width, r) == Cell(width, r0 + r, c0)
  {
  }

  /** The cells of one row from column c0 on. */
  lemma CellInRow(width: nat, r: nat, c0: nat, run: nat, row: nat, col: nat)
    requires c0 + run <= width && col < width
    ensures Cell(width, r, c0) <= Cell(width, row, col) < Cell(width, r, c0) + run <==> row == r && c0 <= col < c0 + run
  {
    var d := row - r;
    assert d * width == row * width - r * width;
    Multiples(width, d);
  }

  /** `after` is `before` with every on-screen pixel of the rectangle drawn. The rectangle
      may reach over the edges of the screen. */
  ghost predicate Painted(g: Geometry, before: seq<uint32>, after: seq<uint32>,
                          x0: int, y0: int, w: int, h: int, color: uint32)
    requires |before| == |after| == g.height * g.width
  {
    forall x: nat, y: nat :: g.OnScreen(x, y) ==>
      after[g.Address(x, y)] ==
        if x0 <= x < x0 + w && y0 <= y < y0 + h then color else before[g.Address(x, y)]
  }

  predicate Inside(px: int, py: int, x0: int, y0: int, w: int, h: int)
  {
    x0 <= px < x0 + w && y0 <= py < y0 + h
  }

  lemma NothingOnScreen(g: Geometry, buf: seq<uint32>, x: int, y: int, w: int, h: int, color: uint32)
    requires |buf| == g.height * g.width && (x >= g.CurrentWidth() || y >= g.CurrentHeight() || w == 0 || h == 0)
    ensures Painted(g, buf, buf, x, y, w, h, color)
  {
  }

  /** Cutting a rectangle off at the edges of the screen changes nothing. */
  lemma ClippedPaints(g: Geometry, before: seq<uint32>, after: seq<uint32>, x: int, y: int, w: int, h: int,
                      color: uint32)
    requires |before| == |after| == g.height * g.width
    requires Painted(g, before, after, x, y, Min(w, g.CurrentWidth() - x), Min(h, g.CurrentHeight() - y), color)
    ensures Painted(g, before, after, x, y, w, h, color)
  {
  }

  /** Two rectangles with the same pixels on the screen. */
  ghost predicate SamePixels(g: Geometry, x0: int, y0: int, w: int, h: int, x1: int, y1: int, w': int, h': int)
  {
    forall px: nat, py: nat :: g.OnScreen(px, py) ==> (Inside(px, py, x0, y0, w, h) <==> Inside(px, py, x1, y1, w', h'))
  }

  lemma SamePainted(g: Geometry, before: seq<uint32>, after: seq<uint32>,
                    x0: int, y0: int, w: int, h: int, x1: int, y1: int, w': int, h': int, color: uint32)
    requires |before| == |after| == g.height * g.width
    requires Painted(g, before, after, x0, y0, w, h, color) && SamePixels(g, x0, y0, w, h, x1, y1, w', h')
    ensures Painted(g, before, after, x1, y1, w', h', color)
  {
    forall x: nat, y: nat | g.OnScreen(x, y)
      ensures after[g.Address(x, y)] ==
              if x1 <= x < x1 + w' && y1 <= y < y1 + h' then color else before[g.Address(x, y)]
    {
      assert Inside(x, y, x0, y0, w, h) <==> Inside(x, y, x1, y1, w', h');
    }
  }

  /** Painting says what every cell of the buffer holds. */
  lemma PaintedDetermines(g: Geometry, before: seq<uint32>, a: seq<uint32>, b: seq<uint32>,
                          x0: int, y0: int, w: int, h: int, color: uint32)
    requires |before| == |a| == |b| == g.height * g.width
    requires Painted(g, before, a, x0, y0, w, h, color) && Painted(g, before, b, x0, y0, w, h, color)
    ensures a == b
  {
    forall k: nat | k < g.height * g.width
      ensures a[k] == b[k]
    {
      var x, y := g.AddressOnto(k);
    }
  }

  /** Drawing single pixels, one after the other. */
  function Plot(g: Geometry, buf: seq<uint32>, pixels: seq<(nat, nat)>, color: uint32): (r: seq<uint32>)
    requires |buf| == g.height * g.width
    requires forall k :: 0 <= k < |pixels| ==> g.OnScreen(pixels[k].0, pixels[k].1)
    ensures |r| == |buf|
  {
    if pixels == [] then buf
    else
      var last := |pixels| - 1;
      Plot(g, buf, pixels[..last], color)[g.Address(pixels[last].0, pixels[last].1) := color]
  }

  lemma {:induction false} PlotAt(g: Geometry, buf: seq<uint32>, pixels: seq<(nat, nat)>, color: uint32, x: nat, y: nat)
    requires |buf| == g.height * g.width && g.OnScreen(x, y)
    requires forall k :: 0 <= k < |pixels| ==> g.OnScreen(pixels[k].0, pixels[k].1)
    ensures Plot(g, buf, pixels, color)[g.Address(x, y)]
         == if (x, y) in pixels then color else buf[g.Address(x, y)]
  {
    if pixels != [] {
      var last := |pixels| - 1;
      PlotAt(g, buf, pixels[..last], color, x, y);
      var p := pixels[last];
      assert pixels == pixels[..last] + [p];
      if g.Address(p.0, p.1) == g.Address(x, y) {
        g.AddressInjective(p.0, p.1, x, y);
      }
    }
  }

  /** A painted rectangle is what plotting its on-screen pixels one by one gives, in any
      order and however often. */
  lemma PaintedIsPlotted(g: Geometry, before: seq<uint32>, after: seq<uint32>, pixels: seq<(nat, nat)>,
                         x0: int, y0: int, w: int, h: int, color: uint32)
    requires |before| == |after| == g.height * g.width
    requires forall k :: 0 <= k < |pixels| ==> g.OnScreen(pixels[k].0, pixels[k].1)
    requires forall x: nat, y: nat :: g.OnScreen(x, y) ==>
               ((x, y) in pixels <==> x0 <= x < x0 + w && y0 <= y < y0 + h)
    requires Painted(g, before, after, x0, y0, w, h, color)
    ensures after == Plot(g, before, pixels, color)
  {
    forall x: nat, y: nat | g.OnScreen(x, y)
      ensures Plot(g, before, pixels, color)[g.Address(x, y)] ==
              if x0 <= x < x0 + w && y0 <= y < y0 + h then color else before[g.Address(x, y)]
    {
      PlotAt(g, before, pixels, color, x, y);
    }
    PaintedDetermines(g, before, after, Plot(g, before, pixels, color), x0, y0, w, h, color);
  }

  // ---- The drawing functions ------------------------------------------------------

  class Display {
    var geometry: Geometry
    var currentWidth: uint16
    var currentHeight: uint16
    const fb: array<uint32>
    // The DMA2D transfer being set up.
    var dmaColor: uint32
    var dmaStart: nat
    var dmaWidth: nat
    var dmaHeight: nat

    /** The state SetConf and SetOrientation leave behind. */
    ghost predicate Valid()
      reads this
    {
      && geometry.width > 0 && geometry.height > 0
      && fb.Length == geometry.height * geometry.width
      && currentWidth == geometry.CurrentWidth()
      && currentHeight == geometry.CurrentHeight()
    }

    /** SetConf, with a buffer for one layer. */
    constructor (g: Geometry)
      requires g.width > 0 && g.height > 0
      ensures Valid() && fresh(fb) && geometry == g
    {
      geometry := g;
      currentWidth, currentHeight := g.CurrentWidth(), g.CurrentHeight();
      dmaColor, dmaStart, dmaWidth, dmaHeight := 0, 0, 0, 0;
      fb := new uint32[g.height * g.width](_ => 0);
    }

    method SetOrientation(orientation: byte)
      requires Valid()
      modifies this
      ensures Valid()
      ensures geometry == if orientation > 3 then old(geometry) else old(geometry).(orientation := orientation)
    {
      if orientation > 3 {
        return;
      }
      geometry := geometry.(orientation := orientation);
      if orientation == 0 || orientation == 1 {
        currentHeight, currentWidth := geometry.height, geometry.width;
      } else {
        currentHeight, currentWidth := geometry.width, geometry.height;
      }
    }

    /** TM_DMA2DGRAPHIC_DrawPixel, which checks no bounds. */
    method DrawPixel(x: uint16, y: uint16, color: uint32)
      requires Valid() && geometry.OnScreen(x, y)
      modifies fb
      ensures fb[..] == old(fb[..])[geometry.Address(x, y) := color]
    {
      fb[geometry.Address(x, y)] := color;
    }

    function GetPixel(x: uint16, y: uint16): (color: uint32)
      requires Valid() && geometry.OnScreen(x, y)
      reads this, fb
    {
      fb[geometry.Address(x, y)]
    }

    method SetMemory(address: nat, numberOfLine: nat, pixelPerLine: nat, color: uint32)
      modifies `dmaStart, `dmaWidth, `dmaHeight, `dmaColor
      ensures dmaStart == address && dmaHeight == numberOfLine
      ensures dmaWidth == pixelPerLine && dmaColor == color
    {
      dmaColor, dmaStart, dmaWidth, dmaHeight := color, address, pixelPerLine, numberOfLine;
    }

    /** The transfer the hardware makes: dmaHeight rows of dmaWidth pixels, with
        OutputOffset = Width - dmaWidth cells skipped after each. */
    method InitAndTransfer()
      requires Valid() && dmaWidth <= geometry.width
      requires dmaHeight > 0 && dmaWidth > 0 ==>
                 RowStart(dmaStart, geometry.width, dmaHeight - 1) + dmaWidth <= fb.Length
      modifies fb
      ensures forall k :: 0 <= k < fb.Length ==>
                fb[k] == if InBlock(k, dmaStart, geometry.width, dmaWidth, dmaHeight) then dmaColor else old(fb[k])
    {
      var outputOffset := geometry.width - dmaWidth;
      var address := dmaStart;
      var line := 0;
      while line < dmaHeight
        invariant 0 <= line <= dmaHeight
        invariant address == RowStart(dmaStart, geometry.width, line)
        invariant forall k :: 0 <= k < fb.Length ==>
                    fb[k] == if InBlock(k, dmaStart, geometry.width, dmaWidth, line) then dmaColor else old(fb[k])
      {
        RowsFit(dmaStart, geometry.width, dmaWidth, line, dmaHeight);
        label row:
        forall c | 0 <= c < dmaWidth {
          fb[address + c] := dmaColor;
        }
        assert forall k :: 0 <= k < fb.Length ==>
                 fb[k] == if address <= k < address + dmaWidth then dmaColor else old@row(fb[k]);
        forall k | 0 <= k < fb.Length
          ensures InBlock(k, dmaStart, geometry.width, dmaWidth, line + 1)
                  <==> InBlock(k, dmaStart, geometry.width, dmaWidth, line) || address <= k < address + dmaWidth
        {
          OneMoreRow(k, dmaStart, geometry.width, dmaWidth, line);
        }
        address := address + dmaWidth + outputOffset;
        line := line + 1;
        NextRow(dmaStart, geometry.width, line - 1);
      }
    }

    /** A transfer that starts in row r0 and column c0 and stays inside its rows. */
    method TransferBlock(ghost r0: nat, ghost c0: nat)
      requires Valid() && dmaStart == Cell(geometry.width, r0, c0)
      requires c0 + dmaWidth <= geometry.width && r0 + dmaHeight <= geometry.height
      modifies fb
      ensures forall k: nat :: k < fb.Length ==>
                fb[k] == if InBlock(k, Cell(geometry.width, r0, c0), geometry.width, dmaWidth, dmaHeight)
                         then dmaColor else old(fb[k])
    {
      BlockFits(geometry.width, geometry.height, r0, c0, dmaWidth, dmaHeight);
      InitAndTransfer();
    }

    /** The transfer of the on-screen rectangle of w by h pixels at x, y. */
    method TransferShape(ghost x: nat, ghost y: nat, ghost w: nat, ghost h: nat)
      requires Valid() && x + w <= geometry.CurrentWidth() && y + h <= geometry.CurrentHeight()
      requires var b := ShapeBlock(geometry, x, y, w, h);
               dmaHeight == b.lines && dmaWidth == b.run && dmaStart == Cell(geometry.width, b.r0, b.c0)
      modifies fb
      ensures Painted(geometry, old(fb[..]), fb[..], x, y, w, h, dmaColor)
    {
      ghost var b := ShapeBlock(geometry, x, y, w, h);
      TransferBlock(b.r0, b.c0);
      ShapeIsBlock(geometry, x, y, w, h);
    }

    /** The transfer of a vertical line on the screen. */
    method SetVertical(x: nat, y: nat, length: nat, color: uint32)
      requires Valid() && x + 1 <= currentWidth && y + length <= currentHeight
      modifies `dmaStart, `dmaWidth, `dmaHeight, `dmaColor
      ensures var b := ShapeBlock(geometry, x, y, 1, length);
              dmaHeight == b.lines && dmaWidth == b.run && dmaStart == Cell(geometry.width, b.r0, b.c0)
      ensures dmaColor == color
    {
      hide Cell;
      var w, h := geometry.width, geometry.height;
      match geometry.orientation {
        case 1 =>
          CellForms(w, y, x);
          SetMemory(y * w + x, length, 1, color);
        case 0 =>
          CellForms(w, h - length - y, w - x - 1);
          SetMemory((h - length - y) * w + w - x - 1, length, 1, color);
        case 3 =>
          CellForms(w, x, w - y - length);
          SetMemory(w - y - length + w * x, 1, length, color);
        case 2 =>
          CellForms(w, h - 1 - x, y);
          SetMemory(y + w * (h - 1 - x), 1, length, color);
      }
    }

    method DrawVerticalLine(x: int16, y: int16, length: uint16, color: uint32)
      requires Valid()
      modifies fb, `dmaStart, `dmaWidth, `dmaHeight, `dmaColor
      ensures Valid()
      ensures Painted(geometry, old(fb[..]), fb[..], Max(x, 0), Max(y, 0), 1, length, color)
      ensures VerticalExact(geometry, x, y, length) ==>
                Painted(geometry, old(fb[..]), fb[..], x, y, 1, length, color)
    {
      hide Cell, VerticalExact, Painted;
      ghost var before, asked := fb[..], (x, y, length);
      if x >= currentWidth || y >= currentHeight || length == 0 {
        NothingOnScreen(geometry, before, Max(x, 0), Max(y, 0), 1, length, color);
        VerticalAsAsked(geometry, before, fb[..], asked.0, asked.1, asked.2, color);
        return;
      }
      var x: nat, y: nat, length: nat := Max(x, 0), Max(y, 0), length;
      if y + length >= currentHeight {
        length := currentHeight - y;
      }
      SetVertical(x, y, length, color);
      TransferShape(x, y, 1, length);
      ClippedPaints(geometry, before, fb[..], x, y, 1, asked.2, color);
      VerticalAsAsked(geometry, before, fb[..], asked.0, asked.1, asked.2, color);
    }

    /** A line that starts left of the screen loses what is there, in 16-bit arithmetic. */
    method DrawHorizontalLine(x: int16, y: int16, length: uint16, color: uint32)
      requires Valid()
      modifies fb, `dmaStart, `dmaWidth, `dmaHeight, `dmaColor
      ensures Valid()
      ensures Painted(geometry, old(fb[..]), fb[..], Max(x, 0), Max(y, 0), VisibleLength(x, length), 1, color)
      ensures HorizontalExact(geometry, x, y, length) ==>
                Painted(geometry, old(fb[..]), fb[..], x, y, length, 1, color)
    {
      hide Cell, HorizontalExact;
      ghost var before, asked := fb[..], (x, y, length);
      if x >= currentWidth || y >= currentHeight || length == 0 {
        HorizontalAsAsked(geometry, before, fb[..], asked.0, asked.1, asked.2, color);
        return;
      }
      var length: nat := VisibleLength(x, length);
      var x: nat, y: nat := Max(x, 0), Max(y, 0);
      if x + length >= currentWidth {
        length := currentWidth - x;
      }
      var w, h := geometry.width, geometry.height;
      match geometry.orientation {
        case 1 =>
          CellForms(w, y, x);
          SetMemory(y * w + x, 1, length, color);
        case 0 =>
          CellForms(w, h - 1 - y, w - x - length);
          SetMemory((h - 1 - y) * w + w - x - length, 1, length, color);
        case 3 =>
          CellForms(w, x, w - y - 1);
          SetMemory(w - y - 1 + w * x, length, 1, color);
        case 2 =>
          CellForms(w, h - length - x, y);
          SetMemory(y + w * (h - length - x), length, 1, color);
      }
      TransferShape(x, y, length, 1);
      HorizontalAsAsked(geometry, before, fb[..], asked.0, asked.1, asked.2, color);
    }

    /** The transfer in orientation 2, of a rectangle on the screen. */
    method FillRotated(x: nat, y: nat, width: nat, height: nat, color: uint32)
      requires Valid() && geometry.orientation == 2
      requires geometry.OnScreen(x, y) && x + width <= currentWidth && y + height <= currentHeight
      modifies fb, `dmaStart, `dmaWidth, `dmaHeight, `dmaColor
      ensures Valid()
      ensures forall k :: 0 <= k < fb.Length ==>
                fb[k] == if InBlock(k, RotatedStart(geometry, x, width), geometry.width, height, width) then color
                         else old(fb[k])
    {
      hide InBlock, RotatedStart, RowStart;
      RotatedFits(geometry, x, height, width);
      SetMemory(RotatedStart(geometry, x, width), width, height, color);
      InitAndTransfer();
    }

    /** In orientation 2 the start column is computed from x. */
    method DrawFilledRectangle(x: uint16, y: uint16, width: uint16, height: uint16, color: uint32)
      requires Valid()
      modifies fb, `dmaStart, `dmaWidth, `dmaHeight, `dmaColor
      ensures Valid()
      ensures geometry.orientation != 2 ==>
                Painted(geometry, old(fb[..]), fb[..], x, y, width, height, color)
      ensures geometry.orientation == 2 ==>
                forall k :: 0 <= k < fb.Length ==>
                  fb[k] == if RotatedFill(geometry, k, x, y, width, height) then color else old(fb[k])
    {
      hide Cell, Painted, InBlock, RotatedStart;
      ghost var before, asked := fb[..], (width, height);
      if x >= currentWidth || y >= currentHeight {
        NothingOnScreen(geometry, before, x, y, width, height, color);
        return;
      }
      var width: nat, height: nat := width, height;
      if y + height >= currentHeight {
        height := currentHeight - y;
      }
      if x + width >= currentWidth {
        width := currentWidth - x;
      }
      var w, h := geometry.width, geometry.height;
      match geometry.orientation {
        case 1 =>
          CellForms(w, y, x);
          SetMemory(y * w + x, height, width, color);
          TransferShape(x, y, width, height);
        case 0 =>
          CellForms(w, h - height - y, w - x - width);
          SetMemory((h - height - y) * w + w - x - width, height, width, color);
          TransferShape(x, y, width, height);
        case 3 =>
          CellForms(w, x, w - y - height);
          SetMemory(w - y - height + w * x, width, height, color);
          TransferShape(x, y, width, height);
        case 2 =>
          FillRotated(x, y, width, height, color);
          return;
      }
      ClippedPaints(geometry, before, fb[..], x, y, asked.0, asked.1, color);
    }
  }

  /** The length drawn from column max(x, 0) on: of a line that starts left of the screen,
      the visible part, unless the line ends there too; that one wraps around. */
  function VisibleLength(x: int16, length: uint16): (visible: uint16)
    ensures visible == Max(0, length + Min(x, 0)) <==> length == 0 || x + length >= 0
    ensures length > 0 && x + length < 0 ==> visible > 32767
  {
    if x < 0 && length > 0 then ToU16(length + x) else length
  }

  /** The vertical lines that are drawn where they should be: those that start on the screen or
      beyond its right or lower edge, and those that start above it and reach its lower edge. */
  predicate VerticalExact(g: Geometry, x: int16, y: int16, length: uint16)
  {
    || length == 0 || x >= g.CurrentWidth() || y >= g.CurrentHeight()
    || (x >= 0 && (y >= 0 || y + length >= g.CurrentHeight()))
  }

  /** DrawVerticalLine moves a start off the screen to its edge and keeps the length. For every
      start and length, what it draws is what can be seen of the line asked for exactly under
      VerticalExact. */
  lemma VerticalLineExact(g: Geometry, x: int16, y: int16, length: uint16)
    requires g.width > 0 && g.height > 0
    ensures SamePixels(g, Max(x, 0), Max(y, 0), 1, length, x, y, 1, length) <==> VerticalExact(g, x, y, length)
  {
    if !VerticalExact(g, x, y, length) {
      var px, py: nat := Max(x, 0), if x < 0 then Max(y, 0) else Max(0, y + length);
      assert g.OnScreen(px, py) && Inside(px, py, Max(x, 0), Max(y, 0), 1, length) && !Inside(px, py, x, y, 1, length);
    }
  }

  /** The horizontal lines that are drawn where they should be: all that start on the screen or
      beyond its right or lower edge, and of those that start left of it the ones not above the
      screen that reach it or end just before it. */
  predicate HorizontalExact(g: Geometry, x: int16, y: int16, length: uint16)
  {
    || length == 0 || x >= g.CurrentWidth() || y >= g.CurrentHeight() || x + length == 0
    || (y >= 0 && x + length > 0)
  }

  /** The same for DrawHorizontalLine. */
  lemma HorizontalLineExact(g: Geometry, x: int16, y: int16, length: uint16)
    requires g.width > 0 && g.height > 0
    ensures SamePixels(g, Max(x, 0), Max(y, 0), VisibleLength(x, length), 1, x, y, length, 1)
            <==> HorizontalExact(g, x, y, length)
  {
    if !HorizontalExact(g, x, y, length) {
      var px, py: nat := Max(x, 0), Max(y, 0);
      assert g.OnScreen(px, py) && !Inside(px, py, x, y, length, 1);
      assert Inside(px, py, Max(x, 0), Max(y, 0), VisibleLength(x, length), 1);
    }
  }

  /** Lines nothing of which can be seen, and which are drawn along the edge of the screen. */
  lemma LinesOffTheScreen()
    ensures var g := Geometry(320, 240, 1);
            && !SamePixels(g, 0, 0, 1, 1, -5, 0, 1, 1)
            && !SamePixels(g, 0, 0, VisibleLength(0, 5), 1, 0, -1, 5, 1)
            && !SamePixels(g, 0, 0, VisibleLength(-5, 1), 1, -5, 0, 1, 1)
  {
    var g := Geometry(320, 240, 1);
    VerticalLineExact(g, -5, 0, 1);
    HorizontalLineExact(g, 0, -1, 5);
    HorizontalLineExact(g, -5, 0, 1);
  }

  /** A horizontal line of length 1 two or more columns left of the screen paints a whole row. */
  lemma PixelPaintsRow(g: Geometry, x: int16, y: int16)
    requires x <= -2 && 0 <= y < g.CurrentHeight() && g.CurrentWidth() <= 32769
    ensures SamePixels(g, 0, y, VisibleLength(x, 1), 1, 0, y, g.CurrentWidth(), 1)
  {
    assert VisibleLength(x, 1) == 65537 + x;
  }

  lemma VerticalAsAsked(g: Geometry, before: seq<uint32>, after: seq<uint32>, x: int16, y: int16, length: uint16,
                        color: uint32)
    requires g.width > 0 && g.height > 0 && |before| == |after| == g.height * g.width
    requires Painted(g, before, after, Max(x, 0), Max(y, 0), 1, length, color)
    ensures VerticalExact(g, x, y, length) ==> Painted(g, before, after, x, y, 1, length, color)
  {
    hide Painted;
    if VerticalExact(g, x, y, length) {
      VerticalLineExact(g, x, y, length);
      SamePainted(g, before, after, Max(x, 0), Max(y, 0), 1, length, x, y, 1, length, color);
    }
  }

  lemma HorizontalAsAsked(g: Geometry, before: seq<uint32>, after: seq<uint32>, x: int16, y: int16, length: uint16,
                          color: uint32)
    requires g.width > 0 && g.height > 0 && |before| == |after| == g.height * g.width
    requires Painted(g, before, after, Max(x, 0), Max(y, 0), VisibleLength(x, length), 1, color)
    ensures HorizontalExact(g, x, y, length) ==> Painted(g, before, after, x, y, length, 1, color)
  {
    hide Painted;
    if HorizontalExact(g, x, y, length) {
      HorizontalLineExact(g, x, y, length);
      SamePainted(g, before, after, Max(x, 0), Max(y, 0), VisibleLength(x, length), 1, x, y, length, 1, color);
    }
  }

  lemma BlockFits(width: nat, height: nat, r0: nat, c0: nat, run: nat, lines: nat)
    requires c0 + run <= width && r0 + lines <= height
    ensures lines > 0 ==> RowStart(Cell(width, r0, c0), width, lines - 1) + run <= height * width
  {
    if lines > 0 {
      assert r0 * width + (lines - 1) * width == (r0 + lines - 1) * width;
      assert (r0 + lines) * width <= height * width;
    }
  }

  /** The two ways the source writes an address. */
  lemma CellForms(width: nat, row: nat, col: nat)
    ensures Cell(width, row, col) == row * width + col == col + width * row
  {
  }

  datatype Block = Block(r0: nat, c0: nat, lines: nat, run: nat)

  /** The rows and columns of a rectangle on the screen. */
  function ShapeBlock(g: Geometry, x: nat, y: nat, w: nat, h: nat): Block
    requires x + w <= g.CurrentWidth() && y + h <= g.CurrentHeight()
  {
    match g.orientation
    case 1 => Block(y, x, h, w)
    case 0 => Block(g.height - h - y, g.width - x - w, h, w)
    case 3 => Block(x, g.width - y - h, w, h)
    case 2 => Block(g.height - w - x, y, w, h)
  }

  lemma ShapeIsBlock(g: Geometry, x: nat, y: nat, w: nat, h: nat)
    requires x + w <= g.CurrentWidth() && y + h <= g.CurrentHeight()
    ensures var b := ShapeBlock(g, x, y, w, h);
            forall px: nat, py: nat :: g.OnScreen(px, py) ==>
              (InBlock(g.Address(px, py), Cell(g.width, b.r0, b.c0), g.width, b.run, b.lines)
               <==> x <= px < x + w && y <= py < y + h)
  {
    var b := ShapeBlock(g, x, y, w, h);
    forall px: nat, py: nat | g.OnScreen(px, py)
      ensures InBlock(g.Address(px, py), Cell(g.width, b.r0, b.c0), g.width, b.run, b.lines)
              <==> x <= px < x + w && y <= py < y + h
    {
      hide Cell;
      BlockIsRectangle(g.width, b.r0, b.c0, b.run, b.lines, g.Row(px, py), g.Col(px, py));
    }
  }

  // ---- Filled rectangles in orientation 2 ------------------------------------------

  /** The start of the transfer. The column should be y. */
  function RotatedStart(g: Geometry, x: nat, width: nat): nat
    requires x + width <= g.height
  {
    x + g.width * (g.height - width - x)
  }

  lemma RotatedFits(g: Geometry, x: nat, run: nat, lines: nat)
    requires x + lines <= g.height && run <= g.width && g.width > 0
    ensures lines > 0 ==>
              RowStart(RotatedStart(g, x, lines), g.width, lines - 1) + run <= g.height * g.width
  {
    var w, rows := g.width, g.height - lines - x;
    assert w * rows + (lines - 1) * w == (rows + lines - 1) * w;
    assert (rows + lines) * w + x * w == g.height * w;
    Scaled(x, w);
  }

  lemma Scaled(x: nat, w: nat)
    requires w >= 1
    ensures x * w >= x
  {
  }

  /** The cells DrawFilledRectangle writes, clipping included. */
  ghost predicate RotatedFill(g: Geometry, k: int, x: nat, y: nat, width: nat, height: nat)
  {
    g.orientation == 2 && g.OnScreen(x, y) &&
    var w, h := Min(width, g.CurrentWidth() - x), Min(height, g.CurrentHeight() - y);
    InBlock(k, RotatedStart(g, x, w), g.width, h, w)
  }

  /** In orientation 2 a filled rectangle lands on the pixels of its rectangle exactly when
      it starts on the diagonal x == y. */
  lemma RotatedFillMatches(g: Geometry, x: nat, y: nat, width: nat, height: nat)
    requires g.orientation == 2 && g.OnScreen(x, y) && width > 0 && height > 0
    ensures (forall px: nat, py: nat :: g.OnScreen(px, py) ==>
               (RotatedFill(g, g.Address(px, py), x, y, width, height)
                <==> x <= px < x + width && y <= py < y + height))
            <==> x == y
  {
    var w, h := Min(width, g.CurrentWidth() - x), Min(height, g.CurrentHeight() - y);
    var start := RotatedStart(g, x, w);
    CellForms(g.width, g.height - w - x, x);
    if x == y {
      ShapeIsBlock(g, x, y, w, h);
      assert Cell(g.width, g.height - w - x, y) == start;
    } else {
      RotatedMismatch(g, x, y, w, h);
      var px, py: nat := x + w - 1, Min(x, y);
      assert x <= px < x + width && (y <= py < y + height <==> y < x);
      assert RotatedFill(g, g.Address(px, py), x, y, width, height) <==> x < y;
    }
  }

  lemma RotatedMismatch(g: Geometry, x: nat, y: nat, w: nat, h: nat)
    requires g.orientation == 2 && x != y && w > 0 && h > 0
    requires x + w <= g.CurrentWidth() && y + h <= g.CurrentHeight()
    ensures var px, py: nat := x + w - 1, Min(x, y);
            InBlock(g.Address(px, py), RotatedStart(g, x, w), g.width, h, w) <==> x < y
  {
    var start, px, py: nat := RotatedStart(g, x, w), x + w - 1, Min(x, y);
    var a := g.Address(px, py);
    CellForms(g.width, g.height - w - x, py);
    assert a + x == start + py;
    hide InBlock, Geometry.Address, RotatedStart, Cell;
    if x < y {
      InFirstRow(a, start, g.width, h, w);
    } else {
      BeforeBlock(a, start, g.width, h, w);
    }
  }

  lemma InFirstRow(k: int, start: nat, stride: nat, run: nat, lines: nat)
    requires start <= k < start + run && lines > 0
    ensures InBlock(k, start, stride, run, lines)
  {
    assert RowStart(start, stride, 0) == start;
  }

  lemma BeforeBlock(k: int, start: nat, stride: nat, run: nat, lines: nat)
    requires k < start
    ensures !InBlock(k, start, stride, run, lines)
  {
  }
}
