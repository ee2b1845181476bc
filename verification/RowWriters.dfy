/** Row writers: every way the code writes a run of pixels, proved to paint exactly that run. `first` and
    `p` are pixel indices, `o` a byte offset. */
module RowWriters {
  import opened Wrappers
  import opened Gfx
  import opened Pixels

  // ---- one pixel ----

  method StorePixel(buf: array<Byte>, bpp: nat, p: nat, p0: Byte, p1: Byte, p2: Byte)
    requires bpp >= 3 && (p + 1) * bpp <= buf.Length
    modifies buf
    ensures SpanPainted(Solid(p0, p1, p2), bpp, old(buf[..]), buf[..], p * bpp, (p + 1) * bpp)
  {
    hide SpanPainted;
    var o := p * bpp;
    assert (p + 1) * bpp == o + bpp;
    buf[o] := p0;
    buf[o + 1] := p1;
    buf[o + 2] := p2;
    PixelPainted(Solid(p0, p1, p2), bpp, old(buf[..]), buf[..], p);
  }

  /** The scalar blend, with the source contributions `sa = src * a` computed once per call. */
  method BlendStore(buf: array<Byte>, bpp: nat, p: nat, p0: Byte, p1: Byte, p2: Byte, a: nat, sa0: nat, sa1: nat,
      sa2: nat)
    requires bpp >= 3 && (p + 1) * bpp <= buf.Length && a <= 256
    requires sa0 == p0 * a && sa1 == p1 * a && sa2 == p2 * a
    modifies buf
    ensures SpanPainted(Blend(p0, p1, p2, a), bpp, old(buf[..]), buf[..], p * bpp, (p + 1) * bpp)
  {
    hide SpanPainted;
    var o := p * bpp;
    assert (p + 1) * bpp == o + bpp;
    MixFits(buf[o], p0, a);
    MixFits(buf[o + 1], p1, a);
    MixFits(buf[o + 2], p2, a);
    buf[o] := (buf[o] * (256 - a) + sa0) / 256;
    buf[o + 1] := (buf[o + 1] * (256 - a) + sa1) / 256;
    buf[o + 2] := (buf[o + 2] * (256 - a) + sa2) / 256;
    PixelPainted(Blend(p0, p1, p2, a), bpp, old(buf[..]), buf[..], p);
  }

  /** The same blend by table lookup. */
  method LookupStore(buf: array<Byte>, bpp: nat, p: nat, t: seq<seq<Byte>>, ghost p0: Byte, ghost p1: Byte,
      ghost p2: Byte, ghost a: nat)
    requires bpp >= 3 && (p + 1) * bpp <= buf.Length && a <= 256 && IsTable(t, p0, p1, p2, a)
    modifies buf
    ensures SpanPainted(Blend(p0, p1, p2, a), bpp, old(buf[..]), buf[..], p * bpp, (p + 1) * bpp)
  {
    hide SpanPainted, Mix;
    var o := p * bpp;
    assert (p + 1) * bpp == o + bpp;
    buf[o] := t[0][buf[o]];
    buf[o + 1] := t[1][buf[o + 1]];
    buf[o + 2] := t[2][buf[o + 2]];
    PixelPainted(Blend(p0, p1, p2, a), bpp, old(buf[..]), buf[..], p);
  }

  // ---- rows of pixels, `count` of them from pixel index `first` ----

  /** The generic path: three stores, then on to the next pixel. */
  method SpanSolid(buf: array<Byte>, bpp: nat, first: nat, count: nat, p0: Byte, p1: Byte, p2: Byte)
    requires bpp >= 3 && (first + count) * bpp <= buf.Length
    modifies buf
    ensures SpanPainted(Solid(p0, p1, p2), bpp, old(buf[..]), buf[..], first * bpp, (first + count) * bpp)
  {
    hide SpanPainted;
    ghost var paint := Solid(p0, p1, p2);
    SpanNone(paint, bpp, buf[..], first * bpp);
    for i := 0 to count
      invariant SpanPainted(paint, bpp, old(buf[..]), buf[..], first * bpp, (first + i) * bpp)
    {
      PixelFits(first, first + i, first + count, bpp, buf.Length);
      ghost var before := buf[..];
      StorePixel(buf, bpp, first + i, p0, p1, p2);
      SpanCompose(paint, bpp, old(buf[..]), before, buf[..], first * bpp, (first + i) * bpp, (first + i + 1) * bpp);
    }
  }

  /** One 32-bit store: colour bytes and a zero padding byte. */
  method StoreWord(buf: array<Byte>, o: nat, word: seq<Byte>)
    requires |word| == 4 && word[3] == 0 && o % 4 == 0 && o + 4 <= buf.Length
    modifies buf
    ensures SpanPainted(Packed(word[0], word[1], word[2]), 4, old(buf[..]), buf[..], o, o + 4)
  {
    forall j | 0 <= j < 4 {
      buf[o + j] := word[j];
    }
  }

  /** A row not aligned for word stores: byte `i` is `word[i & 3]`. */
  method SpanBytes(buf: array<Byte>, o: nat, length: nat, word: seq<Byte>)
    requires |word| == 4 && word[3] == 0 && o % 4 == 0 && o + length <= buf.Length
    modifies buf
    ensures SpanPainted(Packed(word[0], word[1], word[2]), 4, old(buf[..]), buf[..], o, o + length)
  {
    for i := 0 to length
      invariant SpanPainted(Packed(word[0], word[1], word[2]), 4, old(buf[..]), buf[..], o, o + i)
    {
      buf[o + i] := word[i % 4];
    }
  }

  /** The 32-bit path: one word per pixel on an aligned row, byte by byte on an unaligned one. */
  method SpanPacked(buf: array<Byte>, first: nat, count: nat, p0: Byte, p1: Byte, p2: Byte, aligned: bool)
    requires (first + count) * 4 <= buf.Length
    modifies buf
    ensures SpanPainted(Packed(p0, p1, p2), 4, old(buf[..]), buf[..], first * 4, (first + count) * 4)
  {
    hide SpanPainted;
    var word := [p0, p1, p2, 0];
    var o := first * 4;
    if !aligned {
      SpanBytes(buf, o, count * 4, word);
      return;
    }
    ghost var paint := Packed(p0, p1, p2);
    SpanNone(paint, 4, buf[..], o);
    for i := 0 to count
      invariant SpanPainted(paint, 4, old(buf[..]), buf[..], o, o + 4 * i)
    {
      ghost var before := buf[..];
      StoreWord(buf, o + 4 * i, word);
      SpanCompose(paint, 4, old(buf[..]), before, buf[..], o, o + 4 * i, o + 4 * i + 4);
    }
  }

  /** One 12-byte store: four pixels. */
  method StoreQuad(buf: array<Byte>, o: nat, p0: Byte, p1: Byte, p2: Byte)
    requires o % 3 == 0 && o + 12 <= buf.Length
    modifies buf
    ensures SpanPainted(Solid(p0, p1, p2), 3, old(buf[..]), buf[..], o, o + 12)
  {
    var quad := [p0, p1, p2, p0, p1, p2, p0, p1, p2, p0, p1, p2];
    forall j | 0 <= j < 12 {
      buf[o + j] := quad[j];
    }
    assert forall k | o <= k < o + 12 :: buf[..][k] == quad[k - o];
    QuadPainted(old(buf[..]), buf[..], o, quad);
  }

  /** The 24-bit path: four pixels (12 bytes) per step, then the rest one by one. */
  method SpanQuads(buf: array<Byte>, first: nat, count: nat, p0: Byte, p1: Byte, p2: Byte)
    requires (first + count) * 3 <= buf.Length
    modifies buf
    ensures SpanPainted(Solid(p0, p1, p2), 3, old(buf[..]), buf[..], first * 3, (first + count) * 3)
  {
    hide SpanPainted;
    ghost var paint := Solid(p0, p1, p2);
    var o := first * 3;
    var quads := count * 3 / 12;
    SpanNone(paint, 3, buf[..], o);
    for q := 0 to quads
      invariant SpanPainted(paint, 3, old(buf[..]), buf[..], o, o + 12 * q)
    {
      ghost var before := buf[..];
      StoreQuad(buf, o + 12 * q, p0, p1, p2);
      SpanCompose(paint, 3, old(buf[..]), before, buf[..], o, o + 12 * q, o + 12 * q + 12);
    }
    for i := 4 * quads to count
      invariant SpanPainted(paint, 3, old(buf[..]), buf[..], o, (first + i) * 3)
    {
      ghost var before := buf[..];
      StorePixel(buf, 3, first + i, p0, p1, p2);
      SpanCompose(paint, 3, old(buf[..]), before, buf[..], o, (first + i) * 3, (first + i + 1) * 3);
    }
  }

  /** One blended span, by table when there is one. */
  method SpanBlend(buf: array<Byte>, bpp: nat, first: nat, count: nat, p0: Byte, p1: Byte, p2: Byte, a: nat,
      lut: Option<seq<seq<Byte>>>)
    requires bpp >= 3 && (first + count) * bpp <= buf.Length && a <= 256
    requires lut.Some? ==> IsTable(lut.value, p0, p1, p2, a)
    modifies buf
    ensures SpanPainted(Blend(p0, p1, p2, a), bpp, old(buf[..]), buf[..], first * bpp, (first + count) * bpp)
  {
    hide SpanPainted, IsTable;
    ghost var paint := Blend(p0, p1, p2, a);
    SpanNone(paint, bpp, buf[..], first * bpp);
    for i := 0 to count
      invariant SpanPainted(paint, bpp, old(buf[..]), buf[..], first * bpp, (first + i) * bpp)
    {
      PixelFits(first, first + i, first + count, bpp, buf.Length);
      ghost var before := buf[..];
      if lut.Some? {
        LookupStore(buf, bpp, first + i, lut.value, p0, p1, p2, a);
      } else {
        BlendStore(buf, bpp, first + i, p0, p1, p2, a, p0 * a, p1 * a, p2 * a);
      }
      SpanCompose(paint, bpp, old(buf[..]), before, buf[..], first * bpp, (first + i) * bpp, (first + i + 1) * bpp);
    }
  }
  
  method StoreGray(buf: array<Byte>, bpp: nat, p: nat, v: Byte)
    requires bpp >= 1 && (p + 1) * bpp <= buf.Length
    modifies buf
    ensures SpanPainted(Gray(v), bpp, old(buf[..]), buf[..], p * bpp, (p + 1) * bpp)
  {
    hide SpanPainted;
    assert (p + 1) * bpp == p * bpp + bpp;
    buf[p * bpp] := v;
    GrayPainted(bpp, old(buf[..]), buf[..], p, v);
  }

  lemma QuadPainted(before: seq<Byte>, after: seq<Byte>, o: nat, quad: seq<Byte>)
    requires |quad| == 12 && quad == quad[..3] + quad[..3] + quad[..3] + quad[..3]
    requires o % 3 == 0 && o + 12 <= |before| == |after|
    requires forall k | 0 <= k < |before| :: after[k] == if o <= k < o + 12 then quad[k - o] else before[k]
    ensures SpanPainted(Solid(quad[0], quad[1], quad[2]), 3, before, after, o, o + 12)
  {
    forall k | 0 <= k < |before|
      ensures after[k] ==
              if o <= k < o + 12 then Apply(Solid(quad[0], quad[1], quad[2]), k % 3, before[k]) else before[k]
    {
      if o <= k < o + 12 {
        assert k % 3 == (k - o) % 3;
        assert quad[k - o] == quad[(k - o) % 3];
      }
    }
  }

  /** `t` tabulates the blend of the colour at `a`. */
  ghost predicate IsTable(t: seq<seq<Byte>>, p0: Byte, p1: Byte, p2: Byte, a: nat)
    requires a <= 256
  {
    && |t| == 3 && |t[0]| == |t[1]| == |t[2]| == 256
    && forall v: Byte :: t[0][v] == Mix(v, p0, a) && t[1][v] == Mix(v, p1, a) && t[2][v] == Mix(v, p2, a)
  }

  lemma PixelFits(first: nat, p: nat, end: nat, bpp: nat, length: nat)
    requires first <= p < end && end * bpp <= length
    ensures first * bpp <= p * bpp && (p + 1) * bpp == p * bpp + bpp <= length
  {
    MulMonotone(bpp, first, p);
    MulMonotone(bpp, p + 1, end);
  }

  lemma NothingPainted(bpp: nat, s: seq<Byte>, lo: nat, hi: nat)
    requires bpp > 0
    ensures SpanPainted(Nothing, bpp, s, s, lo, hi)
  {
  }

  lemma GrayPainted(bpp: nat, before: seq<Byte>, after: seq<Byte>, p: nat, v: Byte)
    requires bpp >= 1 && (p + 1) * bpp <= |before| && p * bpp < |before| && after == before[p * bpp := v]
    ensures SpanPainted(Gray(v), bpp, before, after, p * bpp, (p + 1) * bpp)
  {
    assert (p + 1) * bpp == p * bpp + bpp;
    forall k | 0 <= k < |before|
      ensures after[k] == if p * bpp <= k < (p + 1) * bpp then Apply(Gray(v), k % bpp, before[k]) else before[k]
    {
      if p * bpp <= k < p * bpp + bpp {
        ChannelAt(p, bpp, k - p * bpp);
      }
    }
  }
}
