/** The framebuffer canvas: fast row writers and the shapes built from them, each proved to paint exactly
    its region. */
module Canvas {
  import opened Wrappers
  import opened Gfx
  import opened Pixels
  import opened PixelBytes
  import opened RowWriters

  const LUT_MIN_PIXELS: nat := 4096
  const USIZE_MAX: nat := 0xFFFF_FFFF_FFFF_FFFF

  function MaxOf(a: nat, b: nat): nat { if a < b then b else a }

  function SaturatingAdd(a: nat, b: nat): nat { Min(a + b, USIZE_MAX) }

  class Canvas {
    const buf: array<Byte>
    const info: Info
    var cx0: nat
    var cy0: nat
    var cx1: nat
    var cy1: nat

    /** A canvas over `buf`, the clip on all of it. */
    constructor (buf: array<Byte>, info: Info)
      requires InfoOk(info) && buf.Length >= info.height * info.stride * info.bpp
      requires info.width <= USIZE_MAX && info.height <= USIZE_MAX
      ensures Valid() && this.buf == buf && this.info == info && Clip() == Rect(0, 0, info.width, info.height)
    {
      this.buf, this.info := buf, info;
      cx0, cy0, cx1, cy1 := 0, 0, info.width, info.height;
    }

    ghost predicate Valid()
      reads this
    {
      && InfoOk(info)
      && buf.Length >= info.height * info.stride * info.bpp
      && info.width <= USIZE_MAX && info.height <= USIZE_MAX
      && cx0 <= cx1 <= info.width && cy0 <= cy1 <= info.height
    }

    ghost function Clip(): Region
      reads this
    {
      Rect(cx0, cy0, cx1, cy1)
    }

    predicate InClip(x: nat, y: nat)
      reads this
    {
      cx0 <= x < cx1 && cy0 <= y < cy1
    }

    /** The part of a rectangle that the clip lets through. */
    ghost function Clipped(x0: nat, y0: nat, x1: nat, y1: nat): (g: Region)
      reads this
      ensures forall x: nat, y: nat :: Inside(g, x, y) <==> x0 <= x < x1 && y0 <= y < y1 && InClip(x, y)
    {
      Rect(MaxOf(x0, cx0), MaxOf(y0, cy0), Min(x1, cx1), Min(y1, cy1))
    }

    /** Limit drawing to the rectangle `[x, x + w) x [y, y + h)`, intersected with the canvas. */
    method SetClip(x: int, y: int, w: int, h: int)
      requires Valid()
      modifies `cx0, `cy0, `cx1, `cy1
      ensures Valid()
      ensures forall px: nat, py: nat :: Inside(Clip(), px, py) <==>
                x <= px < x + w && y <= py < y + h && px < info.width && py < info.height
    {
      cx0 := Min(if x > 0 then x else 0, info.width);
      cy0 := Min(if y > 0 then y else 0, info.height);
      cx1 := MaxOf(Min(if x + w > 0 then x + w else 0, info.width), cx0);
      cy1 := MaxOf(Min(if y + h > 0 then y + h else 0, info.height), cy0);
    }

    /** Every pixel of a painted region of the canvas shows the color. */
    lemma AllShow(c: Color, paint: Paint, s0: seq<Byte>, s1: seq<Byte>, g: Region)
      requires Valid() && (paint == PutPaint(info, c) || paint == FillPaint(info, c)) && !paint.Blend?
      requires |s0| == buf.Length && Painted(info, paint, s0, s1, g)
      ensures forall x: nat, y: nat | Inside(g, x, y) && InClip(x, y) :: Shows(info, c, s1, x, y)
    {
      hide Painted, Inside, PutPaint, FillPaint, Shows;
      forall x: nat, y: nat | Inside(g, x, y) && InClip(x, y)
        ensures Shows(info, c, s1, x, y)
      {
        PixelInside(info, x, y, buf.Length);
        PaintShows(info, c, paint, s0, s1, g, x, y);
      }
    }

    // ---- shapes ----

    /** The format match of `put`, on pixel index `p`. */
    method StoreColor(p: nat, c: Color)
      requires InfoOk(info) && (p + 1) * info.bpp <= buf.Length
      modifies buf
      ensures SpanPainted(PutPaint(info, c), info.bpp, old(buf[..]), buf[..], p * info.bpp, (p + 1) * info.bpp)
    {
      hide SpanPainted, Luma;
      match info.format {
        case Rgb => StorePixel(buf, info.bpp, p, c.r, c.g, c.b);
        case Bgr => StorePixel(buf, info.bpp, p, c.b, c.g, c.r);
        case U8 => StoreGray(buf, info.bpp, p, Luma(c));
        case Unknown =>
          if info.bpp >= 3 {
            StorePixel(buf, info.bpp, p, c.r, c.g, c.b);
          } else {
            NothingPainted(info.bpp, buf[..], p * info.bpp, (p + 1) * info.bpp);
          }
      }
    }

    /** One pixel, clipped, in the buffer's own format. */
    method Put(x: nat, y: nat, c: Color)
      requires Valid()
      modifies buf
      ensures Painted(info, PutPaint(info, c), old(buf[..]), buf[..], Clipped(x, y, x + 1, y + 1))
      ensures if InClip(x, y) then Shows(info, c, buf[..], x, y) else buf[..] == old(buf[..])
    {
      hide Painted, SpanPainted, PutPaint, Shows;
      ghost var paint := PutPaint(info, c);
      PutPaintOk(info, c);
      if x < cx0 || x >= cx1 || y < cy0 || y >= cy1 {
        PaintedNone(info, paint, buf[..], Clipped(x, y, x + 1, y + 1));
        return;
      }
      SpanInside(info, y, x, x + 1, buf.Length);
      StoreColor(y * info.stride + x, c);
      RowPainted(info, paint, old(buf[..]), buf[..], y, x, x + 1);
      SameRegion(info, paint, old(buf[..]), buf[..], Rect(x, y, x + 1, y + 1), Clipped(x, y, x + 1, y + 1));
      AllShow(c, paint, old(buf[..]), buf[..], Clipped(x, y, x + 1, y + 1));
    }

    /** `put` on every pixel `[x0, x1)` of row `y`. */
    method PutRow(x0: nat, x1: nat, y: nat, c: Color)
      requires Valid() && x0 <= x1
      modifies buf
      ensures Painted(info, PutPaint(info, c), old(buf[..]), buf[..], Clipped(x0, y, x1, y + 1))
    {
      hide Painted, PutPaint;
      ghost var paint := PutPaint(info, c);
      PutPaintOk(info, c);
      PaintedNone(info, paint, buf[..], Clipped(x0, y, x0, y + 1));
      for x := x0 to x1
        invariant Painted(info, paint, old(buf[..]), buf[..], Clipped(x0, y, x, y + 1))
      {
        ghost var before := buf[..];
        Put(x, y, c);
        AddRegion(info, paint, old(buf[..]), before, buf[..],
                  Clipped(x0, y, x, y + 1), Clipped(x, y, x + 1, y + 1), Clipped(x0, y, x + 1, y + 1));
      }
    }

    /** `put` on every pixel of a rectangle: the simple form of `FillRect`. */
    method PutEach(x0: nat, y0: nat, x1: nat, y1: nat, c: Color)
      requires Valid() && x0 <= x1 && y0 <= y1
      modifies buf
      ensures Painted(info, PutPaint(info, c), old(buf[..]), buf[..], Clipped(x0, y0, x1, y1))
    {
      hide Painted, PutPaint;
      ghost var paint := PutPaint(info, c);
      PutPaintOk(info, c);
      PaintedNone(info, paint, buf[..], Clipped(x0, y0, x1, y0));
      for y := y0 to y1
        invariant Painted(info, paint, old(buf[..]), buf[..], Clipped(x0, y0, x1, y))
      {
        ghost var before := buf[..];
        PutRow(x0, x1, y, c);
        AddRegion(info, paint, old(buf[..]), before, buf[..],
                  Clipped(x0, y0, x1, y), Clipped(x0, y, x1, y + 1), Clipped(x0, y0, x1, y + 1));
      }
    }

    /** A run of pixels by the fastest path for the format. */
    method FillSpan(first: nat, count: nat, c: Color, aligned: bool)
      requires InfoOk(info) && (info.format.Rgb? || info.format.Bgr?) && (first + count) * info.bpp <= buf.Length
      modifies buf
      ensures SpanPainted(FillPaint(info, c), info.bpp, old(buf[..]), buf[..], first * info.bpp,
          (first + count) * info.bpp)
    {
      hide SpanPainted, Luma;
      var (p0, p1, p2) := Ordered(info.format, c);
      if info.bpp == 4 {
        SpanPacked(buf, first, count, p0, p1, p2, aligned);
      } else if info.bpp == 3 {
        SpanQuads(buf, first, count, p0, p1, p2);
      } else {
        SpanSolid(buf, info.bpp, first, count, p0, p1, p2);
      }
    }

    /** One row of a rectangle already clipped, pixel by pixel. */
    method FillRowSlowly(x0: nat, x1: nat, y: nat, c: Color)
      requires Valid() && cx0 <= x0 <= x1 <= cx1 && cy0 <= y < cy1
      modifies buf
      ensures Painted(info, PutPaint(info, c), old(buf[..]), buf[..], Rect(x0, y, x1, y + 1))
    {
      hide Painted, PutPaint;
      PutPaintOk(info, c);
      PutRow(x0, x1, y, c);
      SameRegion(info, PutPaint(info, c), old(buf[..]), buf[..], Clipped(x0, y, x1, y + 1), Rect(x0, y, x1, y + 1));
    }

    /** One row of a rectangle already clipped. */
    method FillRow(x0: nat, x1: nat, y: nat, c: Color, aligned: bool)
      requires Valid() && cx0 <= x0 <= x1 <= cx1 && cy0 <= y < cy1
      modifies buf
      ensures Painted(info, FillPaint(info, c), old(buf[..]), buf[..], Rect(x0, y, x1, y + 1))
    {
      hide Painted, SpanPainted, PutPaint;
      ghost var paint := FillPaint(info, c);
      PutPaintOk(info, c);
      if info.format.U8? || info.format.Unknown? {
        FillRowSlowly(x0, x1, y, c);
        return;
      }
      SpanInside(info, y, x0, x1, buf.Length);
      FillSpan(y * info.stride + x0, x1 - x0, c, aligned);
      RowPainted(info, paint, old(buf[..]), buf[..], y, x0, x1);
    }

    /** Fill a rectangle. `aligned` tells whether its rows can be written word by word. */
    method FillRect(x0: nat, y0: nat, w: nat, h: nat, c: Color, aligned: bool)
      requires Valid()
      modifies buf
      ensures Painted(info, FillPaint(info, c), old(buf[..]), buf[..], Clipped(x0, y0, x0 + w, y0 + h))
      ensures forall x: nat, y: nat | x0 <= x < x0 + w && y0 <= y < y0 + h && InClip(x, y) ::
                Shows(info, c, buf[..], x, y)
    {
      hide Painted, FillPaint, Shows;
      ghost var paint := FillPaint(info, c);
      FillPaintOk(info, c);
      var xEnd, yEnd := Min(SaturatingAdd(x0, w), cx1), Min(SaturatingAdd(y0, h), cy1);
      var xs, ys := MaxOf(x0, cx0), MaxOf(y0, cy0);
      if xEnd <= xs || yEnd <= ys {
        PaintedNone(info, paint, buf[..], Clipped(x0, y0, x0 + w, y0 + h));
        return;
      }
      PaintedNone(info, paint, buf[..], Rect(xs, ys, xEnd, ys));
      for y := ys to yEnd
        invariant Painted(info, paint, old(buf[..]), buf[..], Rect(xs, ys, xEnd, y))
      {
        ghost var before := buf[..];
        FillRow(xs, xEnd, y, c, aligned);
        AddRegion(info, paint, old(buf[..]), before, buf[..],
                  Rect(xs, ys, xEnd, y), Rect(xs, y, xEnd, y + 1), Rect(xs, ys, xEnd, y + 1));
      }
      SameRegion(info, paint, old(buf[..]), buf[..], Rect(xs, ys, xEnd, yEnd), Clipped(x0, y0, x0 + w, y0 + h));
      AllShow(c, paint, old(buf[..]), buf[..], Clipped(x0, y0, x0 + w, y0 + h));
    }
  
    /** Blend `[xs, xe)` of row `y`, leaving out the hole: a row that crosses it has a left and a right part. */
    method BlendRow(xs: nat, xe: nat, y: nat, p0: Byte, p1: Byte, p2: Byte, a: nat, lut: Option<seq<seq<Byte>>>,
                    hx: nat, hy: nat, hw: nat, hh: nat)
      requires Valid() && info.bpp >= 3 && a <= 256 && xs <= xe <= cx1 && y < cy1
      requires lut.Some? ==> IsTable(lut.value, p0, p1, p2, a)
      modifies buf
      ensures Painted(info, Blend(p0, p1, p2, a), old(buf[..]), buf[..],
                      Minus(Rect(xs, y, xe, y + 1), Rect(hx, hy, hx + hw, hy + hh)))
    {
      hide Painted, IsTable;
      ghost var paint := Blend(p0, p1, p2, a);
      ghost var goal := Minus(Rect(xs, y, xe, y + 1), Rect(hx, hy, hx + hw, hy + hh));
      if hw > 0 && hy <= y < hy + hh {
        var (left, right) := SplitSpanAroundHole(xs, xe, hx, hw);
        BlendPart(left, y, p0, p1, p2, a, lut);
        ghost var between := buf[..];
        BlendPart(right, y, p0, p1, p2, a, lut);
        AddRegion(info, paint, old(buf[..]), between, buf[..], PartRect(left, y), PartRect(right, y), goal);
      } else {
        BlendPart(Some(Span(xs, xe)), y, p0, p1, p2, a, lut);
        SameRegion(info, paint, old(buf[..]), buf[..], PartRect(Some(Span(xs, xe)), y), goal);
      }
    }

    method BlendPart(part: Option<Span>, y: nat, p0: Byte, p1: Byte, p2: Byte, a: nat, lut: Option<seq<seq<Byte>>>)
      requires Valid() && info.bpp >= 3 && a <= 256 && y < cy1
      requires part.Some? ==> part.value.start <= part.value.end <= cx1
      requires lut.Some? ==> IsTable(lut.value, p0, p1, p2, a)
      modifies buf
      ensures Painted(info, Blend(p0, p1, p2, a), old(buf[..]), buf[..], PartRect(part, y))
    {
      hide Painted, SpanPainted, IsTable;
      ghost var paint := Blend(p0, p1, p2, a);
      match part {
        case None =>
          PaintedNone(info, paint, buf[..], PartRect(part, y));
        case Some(Span(from, to)) =>
          SpanInside(info, y, from, to, buf.Length);
          SpanBlend(buf, info.bpp, y * info.stride + from, to - from, p0, p1, p2, a, lut);
          RowPainted(info, paint, old(buf[..]), buf[..], y, from, to);
      }
    }

    /** Row `y` of the rounded shape: clip it, then blend what is left of it. */
    method BlendShapeRow(x0: nat, y0: nat, w: nat, h: nat, r: nat, y: nat, p0: Byte, p1: Byte, p2: Byte, a: nat,
                         lut: Option<seq<seq<Byte>>>, hx: nat, hy: nat, hw: nat, hh: nat)
      requires Valid() && info.bpp >= 3 && a <= 256 && y < h && r <= w / 2 && cy0 <= y0 + y < cy1
      requires lut.Some? ==> IsTable(lut.value, p0, p1, p2, a)
      modifies buf
      ensures Painted(info, Blend(p0, p1, p2, a), old(buf[..]), buf[..],
                      Minus(RowRect(x0, w, r, y, h, y0, Clip()), Rect(hx, hy, hx + hw, hy + hh)))
    {
      hide Painted, CornerInset, IsTable;
      ghost var paint := Blend(p0, p1, p2, a);
      ghost var hole := Rect(hx, hy, hx + hw, hy + hh);
      ghost var goal := Minus(RowRect(x0, w, r, y, h, y0, Clip()), hole);
      var inset := ComputeInset(r, y, h);
      if w <= 2 * inset {
        PaintedNone(info, paint, buf[..], goal);
        return;
      }
      var xs, xe := MaxOf(x0 + inset, cx0), Min(x0 + w - inset, cx1);
      if xs >= xe {
        PaintedNone(info, paint, buf[..], goal);
        return;
      }
      BlendRow(xs, xe, y0 + y, p0, p1, p2, a, lut, hx, hy, hw, hh);
      SameRegion(info, paint, old(buf[..]), buf[..], Minus(Rect(xs, y0 + y, xe, y0 + y + 1), hole), goal);
    }

    /** The rounded translucent fill: with the clip and around the hole, each pixel of the shape is blended
        exactly once, by table or by formula. Formats without three colour bytes are left alone. */
    method FillRoundRectAlpha(x0: nat, y0: nat, w: nat, h: nat, r: nat, c: Color, alpha: nat,
                              hx: nat, hy: nat, hw: nat, hh: nat)
      requires Valid()
      modifies buf
      ensures !(info.format.Rgb? || info.format.Bgr?) ==> buf[..] == old(buf[..])
      ensures info.format.Rgb? || info.format.Bgr? ==>
                Painted(info, BlendPaint(info, c, alpha), old(buf[..]), buf[..],
                        Rounded(x0, y0, w, h, Min(Min(r, w / 2), h / 2), Clip(), Rect(hx, hy, hx + hw, hy + hh), h))
      ensures info.format.Rgb? || info.format.Bgr? ==>
                forall x: nat, y: nat | InShape(x0, y0, w, h, r, x, y) && !(hx <= x < hx + hw && hy <= y < hy + hh) ::
                  && Blended(info, c, Min(alpha, 256), old(buf[..]), buf[..], x, y)
                  && (alpha >= 256 ==> Shows(info, c, buf[..], x, y))
    {
      BlendShape(x0, y0, w, h, r, c, alpha, hx, hy, hw, hh);
      if info.format.Rgb? || info.format.Bgr? {
        ShapeBlended(x0, y0, w, h, r, c, alpha, Rect(hx, hy, hx + hw, hy + hh), old(buf[..]));
      }
    }

    /** Pixel `(x, y)` is one of the rounded rectangle that the clip lets through. */
    predicate InShape(x0: nat, y0: nat, w: nat, h: nat, r: nat, x: nat, y: nat)
      reads this
    {
      x0 <= x && y0 <= y && InRoundedRect(w, h, Min(Min(r, w / 2), h / 2), x - x0, y - y0) && InClip(x, y)
    }

    lemma ShapeBlended(x0: nat, y0: nat, w: nat, h: nat, r: nat, c: Color, alpha: nat, hole: Region, s0: seq<Byte>)
      requires Valid() && (info.format.Rgb? || info.format.Bgr?) && |s0| == buf.Length
      requires Painted(info, BlendPaint(info, c, alpha), s0, buf[..],
                       Rounded(x0, y0, w, h, Min(Min(r, w / 2), h / 2), Clip(), hole, h))
      ensures forall x: nat, y: nat | InShape(x0, y0, w, h, r, x, y) && !Inside(hole, x, y) ::
                && Blended(info, c, Min(alpha, 256), s0, buf[..], x, y)
                && (alpha >= 256 ==> Shows(info, c, buf[..], x, y))
    {
      hide Painted, Shows, Blended, CornerInset, InRoundedRect;
      var radius := Min(Min(r, w / 2), h / 2);
      forall x: nat, y: nat | InShape(x0, y0, w, h, r, x, y) && !Inside(hole, x, y)
        ensures Blended(info, c, Min(alpha, 256), s0, buf[..], x, y)
        ensures alpha >= 256 ==> Shows(info, c, buf[..], x, y)
      {
        RoundedIsShape(x0, y0, w, h, radius, Clip(), hole, x, y);
        PixelInside(info, x, y, buf.Length);
        BlendMixes(info, c, BlendPaint(info, c, alpha), s0, buf[..],
                   Rounded(x0, y0, w, h, radius, Clip(), hole, h), x, y);
      }
    }

    method BlendShape(x0: nat, y0: nat, w: nat, h: nat, r: nat, c: Color, alpha: nat,
                      hx: nat, hy: nat, hw: nat, hh: nat)
      requires Valid()
      modifies buf
      ensures !(info.format.Rgb? || info.format.Bgr?) ==> buf[..] == old(buf[..])
      ensures info.format.Rgb? || info.format.Bgr? ==>
                Painted(info, BlendPaint(info, c, alpha), old(buf[..]), buf[..],
                        Rounded(x0, y0, w, h, Min(Min(r, w / 2), h / 2), Clip(), Rect(hx, hy, hx + hw, hy + hh), h))
    {
      hide Painted, CornerInset, IsTable, Mix;
      var radius := Min(Min(r, w / 2), h / 2);
      var a := Min(alpha, 256);
      ghost var paint := BlendPaint(info, c, alpha);
      ghost var hole := Rect(hx, hy, hx + hw, hy + hh);
      ghost var clip := Clip();
      if !(info.format.Rgb? || info.format.Bgr?) {
        return;
      }
      if a == 0 {
        BlendNothing(info, paint, buf[..], Rounded(x0, y0, w, h, radius, clip, hole, h));
        return;
      }
      var (p0, p1, p2) := Ordered(info.format, c);
      var lut: Option<seq<seq<Byte>>> := None;
      if w * h >= LUT_MIN_PIXELS && (info.bpp == 3 || info.bpp == 4) {
        var t := BlendLut([p0, p1, p2], a);
        TableOk(t, p0, p1, p2, a);
        lut := Some(t);
      }
      RoundedStart(info, paint, buf[..], x0, y0, w, h, radius, clip, hole);
      var y := 0;
      while y < h && y0 + y < cy1
        invariant y <= h
        invariant Painted(info, paint, old(buf[..]), buf[..], Rounded(x0, y0, w, h, radius, clip, hole, y))
      {
        ghost var before := buf[..];
        if y0 + y >= cy0 {
          BlendShapeRow(x0, y0, w, h, radius, y, p0, p1, p2, a, lut, hx, hy, hw, hh);
          RoundedRow(info, paint, old(buf[..]), before, buf[..], x0, y0, w, h, radius, clip, hole, y);
        } else {
          RoundedSkip(info, paint, old(buf[..]), buf[..], x0, y0, w, h, radius, clip, hole, y, y + 1);
        }
        y := y + 1;
      }
      RoundedSkip(info, paint, old(buf[..]), buf[..], x0, y0, w, h, radius, clip, hole, y, h);
    }
  
    /** The rounded opaque fill: one clipped rectangle per row. */
    method FillRoundRect(x0: nat, y0: nat, w: nat, h: nat, r: nat, c: Color, aligned: bool)
      requires Valid()
      modifies buf
      ensures Painted(info, FillPaint(info, c), old(buf[..]), buf[..],
                      Rounded(x0, y0, w, h, Min(Min(r, w / 2), h / 2), Clip(), NoHole(), h))
      ensures forall x: nat, y: nat | InShape(x0, y0, w, h, r, x, y) :: Shows(info, c, buf[..], x, y)
    {
      FillShape(x0, y0, w, h, r, c, aligned);
      ShapeFilled(x0, y0, w, h, r, c, old(buf[..]));
    }

    lemma ShapeFilled(x0: nat, y0: nat, w: nat, h: nat, r: nat, c: Color, s0: seq<Byte>)
      requires Valid() && |s0| == buf.Length
      requires Painted(info, FillPaint(info, c), s0, buf[..],
                       Rounded(x0, y0, w, h, Min(Min(r, w / 2), h / 2), Clip(), NoHole(), h))
      ensures forall x: nat, y: nat | InShape(x0, y0, w, h, r, x, y) :: Shows(info, c, buf[..], x, y)
    {
      hide Painted, Shows, FillPaint, CornerInset, InRoundedRect;
      var radius := Min(Min(r, w / 2), h / 2);
      var shape := Rounded(x0, y0, w, h, radius, Clip(), NoHole(), h);
      FillPaintOk(info, c);
      AllShow(c, FillPaint(info, c), s0, buf[..], shape);
      forall x: nat, y: nat | InShape(x0, y0, w, h, r, x, y)
        ensures Shows(info, c, buf[..], x, y)
      {
        RoundedIsShape(x0, y0, w, h, radius, Clip(), NoHole(), x, y);
        assert Inside(shape, x, y) && InClip(x, y);
      }
    }

    method FillShape(x0: nat, y0: nat, w: nat, h: nat, r: nat, c: Color, aligned: bool)
      requires Valid()
      modifies buf
      ensures Painted(info, FillPaint(info, c), old(buf[..]), buf[..],
                      Rounded(x0, y0, w, h, Min(Min(r, w / 2), h / 2), Clip(), NoHole(), h))
    {
      hide Painted, CornerInset, FillPaint;
      var radius := Min(Min(r, w / 2), h / 2);
      ghost var paint := FillPaint(info, c);
      FillPaintOk(info, c);
      ghost var clip := Clip();
      RoundedStart(info, paint, buf[..], x0, y0, w, h, radius, clip, NoHole());
      for y := 0 to h
        invariant Painted(info, paint, old(buf[..]), buf[..], Rounded(x0, y0, w, h, radius, clip, NoHole(), y))
      {
        var inset := ComputeInset(radius, y, h);
        ghost var before := buf[..];
        ghost var row := Rect(0, 0, 0, 0);
        if w > 2 * inset {
          FillRect(x0 + inset, y0 + y, w - 2 * inset, 1, c, aligned);
          row := Clipped(x0 + inset, y0 + y, x0 + inset + (w - 2 * inset), y0 + y + 1);
        } else {
          PaintedNone(info, paint, buf[..], row);
        }
        AddRegion(info, paint, old(buf[..]), before, buf[..], Rounded(x0, y0, w, h, radius, clip, NoHole(), y), row,
                  Rounded(x0, y0, w, h, radius, clip, NoHole(), y + 1));
      }
    }
  }

  /** Filling a rectangle and putting each of its pixels, from the same buffer under the same clip: equal in
      every byte but the padding the packed path zeroes, and untouched outside rectangle and clip. */
  method FillEqualsPutting(fast: Canvas, slow: Canvas, x0: nat, y0: nat, w: nat, h: nat, c: Color, aligned: bool)
    requires fast.Valid() && slow.Valid() && fast.info == slow.info && fast.buf != slow.buf
    requires fast.cx0 == slow.cx0 && fast.cy0 == slow.cy0 && fast.cx1 == slow.cx1 && fast.cy1 == slow.cy1
    requires fast.buf[..] == slow.buf[..]
    modifies fast.buf, slow.buf
    ensures forall k | 0 <= k < fast.buf.Length ::
              fast.buf[..][k] == slow.buf[..][k] ||
                  (FillPaint(fast.info, c).Packed? && k % 4 == 3 && fast.buf[..][k] == 0)
    ensures forall k | 0 <= k < fast.buf.Length
        && !Inside(fast.Clipped(x0, y0, x0 + w, y0 + h), Col(fast.info, k), Row(fast.info, k)) ::
              fast.buf[..][k] == old(fast.buf[..])[k]
  {
    hide Painted, FillPaint, PutPaint;
    ghost var start := fast.buf[..];
    fast.FillRect(x0, y0, w, h, c, aligned);
    slow.PutEach(x0, y0, x0 + w, y0 + h, c);
    forall k | 0 <= k < fast.buf.Length
      ensures fast.buf[..][k] == slow.buf[..][k] ||
          (FillPaint(fast.info, c).Packed? && k % 4 == 3 && fast.buf[..][k] == 0)
      ensures !Inside(fast.Clipped(x0, y0, x0 + w, y0 + h), Col(fast.info, k), Row(fast.info, k)) ==>
          fast.buf[..][k] == start[k]
    {
      FillPaintOk(fast.info, c);
      PutPaintOk(fast.info, c);
      FillAgreesWithPut(fast.info, c, start, fast.buf[..], slow.buf[..], fast.Clipped(x0, y0, x0 + w, y0 + h), k);
    }
  }

  ghost function NoHole(): Region { Rect(0, 0, 0, 0) }

  ghost function PartRect(part: Option<Span>, y: nat): Region {
    if part.None? then Rect(0, 0, 0, 0) else Rect(part.value.start, y, part.value.end, y + 1)
  }

  /** The part of row `y` of a rounded shape that the clip lets through. */
  ghost function RowRect(x0: nat, w: nat, r: nat, y: nat, h: nat, y0: nat, clip: Region): Region
    requires clip.Rect?
  {
    var inset := CornerInset(r, y, h);
    var end := x0 + w - inset;
    Rect(MaxOf(x0 + inset, clip.x0), y0 + y, if end < 0 then 0 else Min(end, clip.x1), y0 + y + 1)
  }

  function BlendPaint(info: Info, c: Color, alpha: nat): (paint: Paint)
    ensures paint.Blend? && paint.a <= 256
  {
    var (p0, p1, p2) := Ordered(info.format, c);
    Blend(p0, p1, p2, Min(alpha, 256))
  }

  lemma TableOk(t: seq<seq<Byte>>, p0: Byte, p1: Byte, p2: Byte, a: nat)
    requires a <= 256 && |t| == 3 && forall ch | 0 <= ch < 3 :: |t[ch]| == 256
    requires forall ch, v: nat | 0 <= ch < 3 && 0 <= v < 256 :: t[ch][v] == Mix(v, [p0, p1, p2][ch], a)
    ensures IsTable(t, p0, p1, p2, a)
  {
    hide Mix;
    forall v: Byte
      ensures t[0][v] == Mix(v, p0, a) && t[1][v] == Mix(v, p1, a) && t[2][v] == Mix(v, p2, a)
    {
      assert t[0][v] == Mix(v, [p0, p1, p2][0], a);
      assert t[1][v] == Mix(v, [p0, p1, p2][1], a);
      assert t[2][v] == Mix(v, [p0, p1, p2][2], a);
    }
  }

  /** At alpha 0 the blend changes nothing. */
  lemma BlendNothing(info: Info, paint: Paint, s: seq<Byte>, g: Region)
    requires InfoOk(info) && paint.Blend? && paint.a == 0
    ensures Painted(info, paint, s, s, g)
  {
    hide Inside, Row, Col;
  }

  lemma RoundedStart(info: Info, paint: Paint, s: seq<Byte>, x0: nat, y0: nat, w: nat, h: nat, r: nat, clip: Region,
      hole: Region)
    requires InfoOk(info) && (paint.Blend? ==> paint.a <= 256)
    ensures Painted(info, paint, s, s, Rounded(x0, y0, w, h, r, clip, hole, 0))
  {
    hide Painted, CornerInset;
    PaintedNone(info, paint, s, Rounded(x0, y0, w, h, r, clip, hole, 0));
  }

  lemma RoundedRow(info: Info, paint: Paint, s0: seq<Byte>, s1: seq<Byte>, s2: seq<Byte>,
                   x0: nat, y0: nat, w: nat, h: nat, r: nat, clip: Region, hole: Region, y: nat)
    requires InfoOk(info) && (paint.Blend? ==> paint.a <= 256) && clip.Rect? && clip.y0 <= y0 + y < clip.y1
    requires Painted(info, paint, s0, s1, Rounded(x0, y0, w, h, r, clip, hole, y))
    requires Painted(info, paint, s1, s2, Minus(RowRect(x0, w, r, y, h, y0, clip), hole))
    ensures Painted(info, paint, s0, s2, Rounded(x0, y0, w, h, r, clip, hole, y + 1))
  {
    hide Painted, CornerInset;
    AddRegion(info, paint, s0, s1, s2, Rounded(x0, y0, w, h, r, clip, hole, y),
              Minus(RowRect(x0, w, r, y, h, y0, clip), hole), Rounded(x0, y0, w, h, r, clip, hole, y + 1));
  }

  /** Rows outside the clip add nothing. */
  lemma RoundedSkip(info: Info, paint: Paint, s0: seq<Byte>, s1: seq<Byte>,
                    x0: nat, y0: nat, w: nat, h: nat, r: nat, clip: Region, hole: Region, y: nat, y': nat)
    requires InfoOk(info) && (paint.Blend? ==> paint.a <= 256) && clip.Rect? && y <= y'
    requires y == y' || y0 + y >= clip.y1 || (y' == y + 1 && y0 + y < clip.y0)
    requires Painted(info, paint, s0, s1, Rounded(x0, y0, w, h, r, clip, hole, y))
    ensures Painted(info, paint, s0, s1, Rounded(x0, y0, w, h, r, clip, hole, y'))
  {
    hide Painted, CornerInset;
    SameRegion(info, paint, s0, s1, Rounded(x0, y0, w, h, r, clip, hole, y), Rounded(x0, y0, w, h, r, clip, hole, y'));
  }

  /** Pixels of a canvas row lie inside the buffer. */
  lemma SpanInside(info: Info, y: nat, xs: nat, xe: nat, length: nat)
    requires InfoOk(info) && y < info.height && xs <= xe <= info.stride
    requires length >= info.height * info.stride * info.bpp
    ensures (y * info.stride + xs + (xe - xs)) * info.bpp <= length
  {
    OffsetInside(info, y, xe);
    assert y * info.stride + xs + (xe - xs) == y * info.stride + xe;
  }

  /** A painted run of a row is that row of a rectangle painted. */
  lemma RowPainted(info: Info, paint: Paint, s0: seq<Byte>, s1: seq<Byte>, y: nat, xs: nat, xe: nat)
    requires InfoOk(info) && (paint.Blend? ==> paint.a <= 256) && xs <= xe <= info.stride
    requires SpanPainted(paint, info.bpp, s0, s1, (y * info.stride + xs) * info.bpp,
        (y * info.stride + xs + (xe - xs)) * info.bpp)
    ensures Painted(info, paint, s0, s1, Rect(xs, y, xe, y + 1))
  {
    hide Painted, SpanPainted, Row, Col, Apply;
    assert y * info.stride + xs + (xe - xs) == y * info.stride + xe;
    PaintedNone(info, paint, s0, Rect(0, 0, 0, 0));
    AddSpan(info, paint, s0, s0, s1, Rect(0, 0, 0, 0), Rect(xs, y, xe, y + 1), y, xs, xe);
  }

  lemma PutPaintOk(info: Info, c: Color)
    ensures !PutPaint(info, c).Blend?
  {
  }

  lemma FillPaintOk(info: Info, c: Color)
    ensures !FillPaint(info, c).Blend?
  {
  }
}
