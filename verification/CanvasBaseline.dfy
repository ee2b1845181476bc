/** The canvas as it was before the clip, the table blend and the 24-bit path: the yardstick the current
    one is measured against. */
module CanvasBaseline {
  import opened Wrappers
  import opened Gfx
  import opened Pixels
  import opened RowWriters
  import Canvas

  class BaselineCanvas {
    const buf: array<Byte>
    const info: Info

    constructor (buf: array<Byte>, info: Info)
      requires InfoOk(info) && buf.Length >= info.height * info.stride * info.bpp
      ensures Valid() && this.buf == buf && this.info == info
    {
      this.buf, this.info := buf, info;
    }

    ghost predicate Valid() {
      InfoOk(info) && buf.Length >= info.height * info.stride * info.bpp
    }

    ghost function Whole(): Region {
      Rect(0, 0, info.width, info.height)
    }

    /** `fill_round_rect_alpha`: the scalar blend only, clamped to the canvas. */
    method FillRoundRectAlpha(x0: nat, y0: nat, w: nat, h: nat, r: nat, c: Color, alpha: nat)
      requires Valid()
      modifies buf
      ensures !(info.format.Rgb? || info.format.Bgr?) ==> buf[..] == old(buf[..])
      ensures info.format.Rgb? || info.format.Bgr? ==>
                Painted(info, Canvas.BlendPaint(info, c, alpha), old(buf[..]), buf[..],
                        Rounded(x0, y0, w, h, Min(Min(r, w / 2), h / 2), Whole(), Canvas.NoHole(), h))
    {
      hide Painted, SpanPainted, CornerInset, Mix;
      var radius := Min(Min(r, w / 2), h / 2);
      var a := Min(alpha, 256);
      ghost var paint := Canvas.BlendPaint(info, c, alpha);
      if !(info.format.Rgb? || info.format.Bgr?) {
        return;
      }
      if a == 0 {
        Canvas.BlendNothing(info, paint, buf[..], Rounded(x0, y0, w, h, radius, Whole(), Canvas.NoHole(), h));
        return;
      }
      Canvas.RoundedStart(info, paint, buf[..], x0, y0, w, h, radius, Whole(), Canvas.NoHole());
      var y := 0;
      while y < h && y0 + y < info.height
        invariant y <= h
        invariant Painted(info, paint, old(buf[..]), buf[..],
                          Rounded(x0, y0, w, h, radius, Whole(), Canvas.NoHole(), y))
      {
        ghost var before := buf[..];
        BlendRow(x0, y0, w, h, radius, y, c, alpha);
        Canvas.RoundedRow(info, paint, old(buf[..]), before, buf[..], x0, y0, w, h, radius,
                          Whole(), Canvas.NoHole(), y);
        y := y + 1;
      }
      Canvas.RoundedSkip(info, paint, old(buf[..]), buf[..], x0, y0, w, h, radius, Whole(), Canvas.NoHole(), y, h);
    }

    method BlendRow(x0: nat, y0: nat, w: nat, h: nat, r: nat, y: nat, c: Color, alpha: nat)
      requires Valid() && info.bpp >= 3 && y < h && r <= w / 2 && y0 + y < info.height
      modifies buf
      ensures Painted(info, Canvas.BlendPaint(info, c, alpha), old(buf[..]), buf[..],
                      Minus(Canvas.RowRect(x0, w, r, y, h, y0, Whole()), Canvas.NoHole()))
    {
      hide Painted, SpanPainted, CornerInset, Mix;
      ghost var paint := Canvas.BlendPaint(info, c, alpha);
      ghost var goal := Minus(Canvas.RowRect(x0, w, r, y, h, y0, Whole()), Canvas.NoHole());
      var a := Min(alpha, 256);
      var (p0, p1, p2) := Ordered(info.format, c);
      var inset := ComputeInset(r, y, h);
      if w <= 2 * inset {
        PaintedNone(info, paint, buf[..], goal);
        return;
      }
      var xs, xe := x0 + inset, Min(x0 + w - inset, info.width);
      if xs >= xe {
        PaintedNone(info, paint, buf[..], goal);
        return;
      }
      Canvas.SpanInside(info, y0 + y, xs, xe, buf.Length);
      SpanBlend(buf, info.bpp, (y0 + y) * info.stride + xs, xe - xs, p0, p1, p2, a, None);
      Canvas.RowPainted(info, paint, old(buf[..]), buf[..], y0 + y, xs, xe);
      SameRegion(info, paint, old(buf[..]), buf[..], Rect(xs, y0 + y, xe, y0 + y + 1), goal);
    }
  }

  /** With the clip on the whole canvas, the current fill and the baseline leave the same bytes: clip,
      hole, table and formula make no difference. */
  method SameAsBaseline(now: Canvas.Canvas, was: BaselineCanvas, x0: nat, y0: nat, w: nat, h: nat, r: nat, c: Color,
      alpha: nat)
    requires now.Valid() && was.Valid() && now.info == was.info && now.buf != was.buf
    requires now.cx0 == 0 && now.cy0 == 0 && now.cx1 == now.info.width && now.cy1 == now.info.height
    requires now.buf[..] == was.buf[..]
    modifies now.buf, was.buf
    ensures now.buf[..] == was.buf[..]
  {
    hide Painted;
    ghost var start := now.buf[..];
    now.FillRoundRectAlpha(x0, y0, w, h, r, c, alpha, 0, 0, 0, 0);
    was.FillRoundRectAlpha(x0, y0, w, h, r, c, alpha);
    if now.info.format.Rgb? || now.info.format.Bgr? {
      PaintedUnique(now.info, Canvas.BlendPaint(now.info, c, alpha), start, now.buf[..], was.buf[..],
                    Rounded(x0, y0, w, h, Min(Min(r, w / 2), h / 2), was.Whole(), Canvas.NoHole(), h));
    }
  }
}
