/** What a painted pixel holds, byte by byte, in the order of the buffer's format. */
module PixelBytes {
  import opened Gfx
  import opened Pixels

  /** Pixel `(x, y)` of the buffer shows `c`: its bytes in the format's order, or its gray. */
  ghost predicate Shows(info: Info, c: Color, s: seq<Byte>, x: nat, y: nat)
    requires InfoOk(info)
  {
    var o := Offset(info, x, y);
    && o + info.bpp <= |s|
    && match info.format
       case Rgb => s[o] == c.r && s[o + 1] == c.g && s[o + 2] == c.b
       case Bgr => s[o] == c.b && s[o + 1] == c.g && s[o + 2] == c.r
       case U8 => IsLuma(c, s[o])
       case Unknown => info.bpp >= 3 ==> s[o] == c.r && s[o + 1] == c.g && s[o + 2] == c.b
  }

  /** Pixel `(x, y)` is what it was, mixed with `c` at `a` / 256. */
  ghost predicate Blended(info: Info, c: Color, a: nat, before: seq<Byte>, after: seq<Byte>, x: nat, y: nat)
    requires InfoOk(info) && info.bpp >= 3
  {
    var o := Offset(info, x, y);
    && o + info.bpp <= |before| == |after|
    && IsMix(before[o], if info.format.Bgr? then c.b else c.r, a, after[o])
    && IsMix(before[o + 1], c.g, a, after[o + 1])
    && IsMix(before[o + 2], if info.format.Bgr? then c.r else c.b, a, after[o + 2])
  }

  /** The bytes of a painted pixel. */
  lemma PixelOf(info: Info, paint: Paint, s0: seq<Byte>, s1: seq<Byte>, g: Region, x: nat, y: nat, j: nat)
    requires InfoOk(info) && (paint.Blend? ==> paint.a <= 256) && Painted(info, paint, s0, s1, g)
    requires x < info.stride && Inside(g, x, y) && Offset(info, x, y) + info.bpp <= |s0| && j < info.bpp
    ensures s1[Offset(info, x, y) + j] == Apply(paint, j, s0[Offset(info, x, y) + j])
  {
    hide Apply, Inside, Row, Col;
    var k := Offset(info, x, y) + j;
    assert Offset(info, x + 1, y) == Offset(info, x, y) + info.bpp;
    SpanIndex(info, y, x, x + 1, k);
    ChannelAt(y * info.stride + x, info.bpp, j);
  }

  /** A pixel put or filled shows the color. */
  lemma PaintShows(info: Info, c: Color, paint: Paint, s0: seq<Byte>, s1: seq<Byte>, g: Region, x: nat, y: nat)
    requires InfoOk(info) && (paint == PutPaint(info, c) || paint == FillPaint(info, c))
    requires !paint.Blend? && Painted(info, paint, s0, s1, g)
    requires x < info.stride && Inside(g, x, y) && Offset(info, x, y) + info.bpp <= |s0|
    ensures Shows(info, c, s1, x, y)
  {
    hide Inside, Row, Col, Luma, Offset;
    LumaExact(c);
    PixelOf(info, paint, s0, s1, g, x, y, 0);
    if info.bpp >= 3 {
      PixelOf(info, paint, s0, s1, g, x, y, 1);
      PixelOf(info, paint, s0, s1, g, x, y, 2);
    }
  }

  /** A pixel blended holds the mix of what it held with the color; at 256 it shows the color. */
  lemma BlendMixes(info: Info, c: Color, paint: Paint, s0: seq<Byte>, s1: seq<Byte>, g: Region, x: nat, y: nat)
    requires InfoOk(info) && (info.format.Rgb? || info.format.Bgr?)
    requires paint.Blend? && paint.a <= 256 && (paint.p0, paint.p1, paint.p2) == Ordered(info.format, c)
    requires Painted(info, paint, s0, s1, g)
    requires x < info.stride && Inside(g, x, y) && Offset(info, x, y) + info.bpp <= |s0|
    ensures Blended(info, c, paint.a, s0, s1, x, y)
    ensures paint.a == 256 ==> Shows(info, c, s1, x, y)
  {
    hide Inside, Row, Col, Mix, Offset, IsMix;
    var o := Offset(info, x, y);
    PixelOf(info, paint, s0, s1, g, x, y, 0);
    PixelOf(info, paint, s0, s1, g, x, y, 1);
    PixelOf(info, paint, s0, s1, g, x, y, 2);
    MixExact(s0[o], paint.p0, paint.a);
    MixExact(s0[o + 1], paint.p1, paint.a);
    MixExact(s0[o + 2], paint.p2, paint.a);
  }

  /** A pixel of the canvas has its bytes in the buffer. */
  lemma PixelInside(info: Info, x: nat, y: nat, length: nat)
    requires InfoOk(info) && x < info.width && y < info.height
    requires length >= info.height * info.stride * info.bpp
    ensures x < info.stride && Offset(info, x, y) + info.bpp <= length
  {
    OffsetInside(info, y, x + 1);
    assert Offset(info, x + 1, y) == Offset(info, x, y) + info.bpp;
  }

  /** The finished rounded region is the clipped rounded rectangle around the hole. */
  lemma RoundedIsShape(left: nat, top: nat, w: nat, h: nat, r: nat, clip: Region, hole: Region, x: nat, y: nat)
    requires r <= w / 2 && r <= h / 2
    ensures Inside(Rounded(left, top, w, h, r, clip, hole, h), x, y) <==>
              && left <= x && top <= y && InRoundedRect(w, h, r, x - left, y - top)
              && Inside(clip, x, y) && !Inside(hole, x, y)
  {
    hide CornerInset, InRoundedRect;
    if left <= x && top <= y && y < top + h {
      InsetsCutShape(w, h, r, x - left, y - top);
    }
    assert left <= x && top <= y && InRoundedRect(w, h, r, x - left, y - top) ==> y < top + h by {
      ShapeInside(w, h, r, if left <= x then x - left else 0, if top <= y then y - top else 0);
    }
  }

  lemma ShapeInside(w: nat, h: nat, r: nat, x: nat, y: nat)
    ensures InRoundedRect(w, h, r, x, y) ==> x < w && y < h
  {
  }
}
