/** Where pixels lie in the buffer, and what painting a region of them means byte by byte. */
module Pixels {
  import opened Gfx

  datatype Format = Rgb | Bgr | U8 | Unknown

  datatype Info = Info(width: nat, height: nat, stride: nat, bpp: nat, format: Format)

  predicate InfoOk(info: Info) {
    && info.width <= info.stride && 1 <= info.stride && 1 <= info.bpp
    && (info.format.Rgb? || info.format.Bgr? ==> info.bpp >= 3)
  }

  function Offset(info: Info, x: nat, y: nat): nat {
    (y * info.stride + x) * info.bpp
  }

  /** Column, row and channel of the byte at index `k`. */
  function Col(info: Info, k: nat): nat
    requires InfoOk(info)
  {
    (k / info.bpp) % info.stride
  }

  function Row(info: Info, k: nat): nat
    requires InfoOk(info)
  {
    (k / info.bpp) / info.stride
  }

  lemma QuotientAtLeast(k: nat, d: nat, q: nat, m: nat, a: nat)
    requires k == d * q + m && m < d
    ensures q >= a <==> k >= a * d
  {
    if a <= q {
      MulMonotone(d, a, q);
    } else {
      MulMonotone(d, q + 1, a);
      assert d * (q + 1) == d * q + d;
    }
  }

  lemma DivAtLeast(k: nat, d: nat, a: nat)
    requires d > 0
    ensures k / d >= a <==> k >= a * d
  {
    QuotientAtLeast(k, d, k / d, k % d, a);
  }

  /** The bytes of the pixels `[xs, xe)` of row `y` are exactly one run of the buffer. */
  lemma SpanIndex(info: Info, y: nat, xs: nat, xe: nat, k: nat)
    requires InfoOk(info) && xs <= xe <= info.stride
    ensures Offset(info, xs, y) <= k < Offset(info, xe, y) <==> Row(info, k) == y && xs <= Col(info, k) < xe
  {
    var p := k / info.bpp;
    DivAtLeast(k, info.bpp, y * info.stride + xs);
    DivAtLeast(k, info.bpp, y * info.stride + xe);
    RowOfPixel(p, info.stride, y);
  }

  lemma RowOfPixel(p: nat, stride: nat, y: nat)
    requires stride > 0
    ensures p / stride == y <==> y * stride <= p < y * stride + stride
    ensures p / stride == y ==> p % stride == p - y * stride
  {
    DivAtLeast(p, stride, y);
    DivAtLeast(p, stride, y + 1);
    assert (y + 1) * stride == y * stride + stride;
    assert p == stride * (p / stride) + p % stride;
  }

  /** Rows inside the canvas lie inside a buffer of `height * stride` pixels. */
  lemma OffsetInside(info: Info, y: nat, x: nat)
    requires InfoOk(info) && y < info.height && x <= info.stride
    ensures Offset(info, x, y) <= info.height * info.stride * info.bpp
  {
    var a, b := y * info.stride + x, info.height * info.stride;
    MulMonotone(info.stride, y + 1, info.height);
    assert info.stride * (y + 1) == y * info.stride + info.stride;
    MulMonotone(info.bpp, a, b);
  }

  lemma ChannelAt(p: nat, bpp: nat, j: nat)
    requires j < bpp
    ensures (p * bpp + j) % bpp == j
  {
    RowOfPixel(p * bpp + j, bpp, p);
  }

  // ---- paint ----

  /** What happens to the bytes of a pixel: three stored colour bytes; the same and a zero padding byte;
      one gray byte; three bytes blended at `a` / 256; nothing. */
  datatype Paint =
    | Solid(p0: Byte, p1: Byte, p2: Byte)
    | Packed(p0: Byte, p1: Byte, p2: Byte)
    | Gray(v: Byte)
    | Blend(p0: Byte, p1: Byte, p2: Byte, a: nat)
    | Nothing

  function Apply(paint: Paint, ch: nat, was: Byte): Byte
    requires paint.Blend? ==> paint.a <= 256
  {
    match paint
    case Solid(p0, p1, p2) => if ch == 0 then p0 else if ch == 1 then p1 else if ch == 2 then p2 else was
    case Packed(p0, p1, p2) => if ch == 0 then p0 else if ch == 1 then p1 else if ch == 2 then p2 else 0
    case Gray(v) => if ch == 0 then v else was
    case Blend(p0, p1, p2, a) =>
      if ch == 0 then Mix(was, p0, a) else if ch == 1 then Mix(was, p1, a) else if ch == 2 then Mix(was, p2, a) else was
    case Nothing => was
  }

  function Ordered(format: Format, c: Color): (Byte, Byte, Byte) {
    if format.Bgr? then (c.b, c.g, c.r) else (c.r, c.g, c.b)
  }

  /** What `put` does to one pixel. */
  function PutPaint(info: Info, c: Color): Paint {
    var (p0, p1, p2) := Ordered(info.format, c);
    match info.format
    case Rgb => Solid(p0, p1, p2)
    case Bgr => Solid(p0, p1, p2)
    case U8 => Gray(Luma(c))
    case Unknown => if info.bpp >= 3 then Solid(p0, p1, p2) else Nothing
  }

  /** What `fill_rect` does to each pixel. */
  function FillPaint(info: Info, c: Color): Paint {
    var (p0, p1, p2) := Ordered(info.format, c);
    if info.bpp == 4 && (info.format.Rgb? || info.format.Bgr?) then Packed(p0, p1, p2) else PutPaint(info, c)
  }

  // ---- runs of bytes ----

  /** `after` is `before` with every byte of `[lo, hi)` painted once. */
  ghost predicate SpanPainted(paint: Paint, bpp: nat, before: seq<Byte>, after: seq<Byte>, lo: nat, hi: nat)
    requires bpp > 0 && (paint.Blend? ==> paint.a <= 256)
  {
    && |after| == |before|
    && forall k | 0 <= k < |before| ::
         after[k] == if lo <= k < hi then Apply(paint, k % bpp, before[k]) else before[k]
  }

  lemma SpanNone(paint: Paint, bpp: nat, s: seq<Byte>, lo: nat)
    requires bpp > 0 && (paint.Blend? ==> paint.a <= 256)
    ensures SpanPainted(paint, bpp, s, s, lo, lo)
  {
  }

  lemma SpanCompose(paint: Paint, bpp: nat, s0: seq<Byte>, s1: seq<Byte>, s2: seq<Byte>, lo: nat, m: nat, hi: nat)
    requires bpp > 0 && (paint.Blend? ==> paint.a <= 256) && lo <= m <= hi
    requires SpanPainted(paint, bpp, s0, s1, lo, m) && SpanPainted(paint, bpp, s1, s2, m, hi)
    ensures SpanPainted(paint, bpp, s0, s2, lo, hi)
  {
    hide Apply;
  }

  /** Three stores at the start of pixel `p` are that pixel painted. */
  lemma PixelPainted(paint: Paint, bpp: nat, before: seq<Byte>, after: seq<Byte>, p: nat)
    requires bpp >= 3 && (paint.Solid? || paint.Blend?) && (paint.Blend? ==> paint.a <= 256)
    requires (p + 1) * bpp <= |before| == |after|
    requires forall k | 0 <= k < |before| ::
               after[k] == if p * bpp <= k < p * bpp + 3 then Apply(paint, k - p * bpp, before[k]) else before[k]
    ensures SpanPainted(paint, bpp, before, after, p * bpp, (p + 1) * bpp)
  {
    hide Mix;
    assert (p + 1) * bpp == p * bpp + bpp;
    forall k | 0 <= k < |before|
      ensures after[k] == if p * bpp <= k < (p + 1) * bpp then Apply(paint, k % bpp, before[k]) else before[k]
    {
      if p * bpp <= k < p * bpp + bpp {
        ChannelAt(p, bpp, k - p * bpp);
      }
    }
  }

  // ---- regions of pixels ----

  /** A rectangle; a region without another; or the first `done` rows of a rounded rectangle, clipped, around a hole. */
  datatype Region =
    | Rect(x0: nat, y0: nat, x1: nat, y1: nat)
    | Minus(from: Region, cut: Region)
    | Rounded(left: nat, top: nat, w: nat, h: nat, r: nat, clip: Region, hole: Region, done: nat)

  ghost predicate Inside(g: Region, x: nat, y: nat)
    decreases g
  {
    match g
    case Rect(x0, y0, x1, y1) => x0 <= x < x1 && y0 <= y < y1
    case Minus(from, cut) => Inside(from, x, y) && !Inside(cut, x, y)
    case Rounded(left, top, w, h, r, clip, hole, done) =>
      && top <= y < top + done
      && (var inset := CornerInset(r, y - top, h); left + inset <= x < left + w - inset)
      && Inside(clip, x, y) && !Inside(hole, x, y)
  }

  /** `after` is `before` with every pixel of the region painted exactly once and nothing else touched. */
  ghost predicate Painted(info: Info, paint: Paint, before: seq<Byte>, after: seq<Byte>, g: Region)
    requires InfoOk(info) && (paint.Blend? ==> paint.a <= 256)
  {
    && |after| == |before|
    && forall k | 0 <= k < |before| ::
         after[k] == if Inside(g, Col(info, k), Row(info, k)) then Apply(paint, k % info.bpp, before[k]) else before[k]
  }

  lemma PaintedNone(info: Info, paint: Paint, s: seq<Byte>, g: Region)
    requires InfoOk(info) && (paint.Blend? ==> paint.a <= 256)
    requires forall x: nat, y: nat :: !Inside(g, x, y)
    ensures Painted(info, paint, s, s, g)
  {
  }

  /** Adding the span `[xs, xe)` of row `y` to a painted region. */
  lemma AddSpan(info: Info, paint: Paint, s0: seq<Byte>, s1: seq<Byte>, s2: seq<Byte>, g: Region, g': Region,
                y: nat, xs: nat, xe: nat)
    requires InfoOk(info) && (paint.Blend? ==> paint.a <= 256) && xs <= xe <= info.stride
    requires Painted(info, paint, s0, s1, g)
    requires SpanPainted(paint, info.bpp, s1, s2, Offset(info, xs, y), Offset(info, xe, y))
    requires forall x: nat, v: nat :: Inside(g', x, v) <==> Inside(g, x, v) || (v == y && xs <= x < xe)
    requires forall x: nat :: Inside(g, x, y) ==> !(xs <= x < xe)
    ensures Painted(info, paint, s0, s2, g')
  {
    hide Inside, Apply, Offset, Row, Col;
    forall k | 0 <= k < |s0|
      ensures s2[k] == if Inside(g', Col(info, k), Row(info, k)) then Apply(paint, k % info.bpp, s0[k]) else s0[k]
    {
      SpanIndex(info, y, xs, xe, k);
    }
  }

  /** Painting a second, disjoint region. */
  lemma AddRegion(info: Info, paint: Paint, s0: seq<Byte>, s1: seq<Byte>, s2: seq<Byte>, g: Region, d: Region,
      g': Region)
    requires InfoOk(info) && (paint.Blend? ==> paint.a <= 256)
    requires Painted(info, paint, s0, s1, g) && Painted(info, paint, s1, s2, d)
    requires forall x: nat, y: nat :: Inside(g', x, y) <==> Inside(g, x, y) || Inside(d, x, y)
    requires forall x: nat, y: nat :: !(Inside(g, x, y) && Inside(d, x, y))
    ensures Painted(info, paint, s0, s2, g')
  {
    hide Inside, Apply, Row, Col;
  }

  lemma SameRegion(info: Info, paint: Paint, s0: seq<Byte>, s1: seq<Byte>, g: Region, g': Region)
    requires InfoOk(info) && (paint.Blend? ==> paint.a <= 256)
    requires Painted(info, paint, s0, s1, g)
    requires forall x: nat, y: nat :: Inside(g', x, y) <==> Inside(g, x, y)
    ensures Painted(info, paint, s0, s1, g')
  {
    hide Inside, Apply, Row, Col;
  }

  /** The painted buffer is determined: two ways of painting the same region give the same bytes. */
  lemma PaintedUnique(info: Info, paint: Paint, s0: seq<Byte>, s1: seq<Byte>, s2: seq<Byte>, g: Region)
    requires InfoOk(info) && (paint.Blend? ==> paint.a <= 256)
    requires Painted(info, paint, s0, s1, g) && Painted(info, paint, s0, s2, g)
    ensures s1 == s2
  {
    hide Inside, Apply, Row, Col;
  }

  /** A rectangle filled and the same rectangle put pixel by pixel agree in every byte, except that the
      packed 32-bit path zeroes the padding byte `put` leaves alone. */
  lemma FillAgreesWithPut(info: Info, c: Color, s0: seq<Byte>, filled: seq<Byte>, put: seq<Byte>, g: Region, k: nat)
    requires InfoOk(info) && k < |s0|
    requires Painted(info, FillPaint(info, c), s0, filled, g) && Painted(info, PutPaint(info, c), s0, put, g)
    ensures |filled| == |put| == |s0|
    ensures filled[k] == put[k] ||
            (FillPaint(info, c).Packed? && k % 4 == 3 && Inside(g, Col(info, k), Row(info, k))
                && filled[k] == 0 && put[k] == s0[k])
    ensures !Inside(g, Col(info, k), Row(info, k)) ==> filled[k] == s0[k] && put[k] == s0[k]
  {
    hide Inside, Row, Col, Mix, Luma;
  }
}
