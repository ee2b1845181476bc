/** Framebuffer arithmetic that touches no memory (`kitsune_core::ui::gfx`). */
module Gfx {
  import opened Wrappers

  type Byte = x: int | 0 <= x < 256

  datatype Color = Color(r: Byte, g: Byte, b: Byte)

  // ---- integer square root ----

  /** The floor square root, by definition. */
  ghost function Root(n: nat): (r: nat)
    ensures r * r <= n < (r + 1) * (r + 1)
  {
    if n == 0 then 0
    else
      var r := Root(n - 1);
      if (r + 1) * (r + 1) <= n then r + 1 else r
  }

  lemma SquareMonotone(a: nat, b: nat)
    ensures a <= b ==> a * a <= b * b
  {
    if a <= b {
      assert b * b == a * a + (b - a) * (b + a);
    }
  }

  predicate NotAbove(n: nat, x: nat) { x * x <= n }
  predicate NotBelow(n: nat, x: nat) { n < (x + 1) * (x + 1) }

  /** `Root` is the only number that is a floor square root of `n`. */
  lemma RootUnique(n: nat, x: nat)
    requires NotAbove(n, x) && NotBelow(n, x)
    ensures x == Root(n)
  {
    SquareMonotone(x + 1, Root(n));
    SquareMonotone(Root(n) + 1, x);
  }

  lemma RootMonotone(m: nat, n: nat)
    requires m <= n
    ensures Root(m) <= Root(n)
  {
    SquareMonotone(Root(n) + 1, Root(m));
  }

  lemma RootOfSquare(r: nat)
    ensures Root(r * r) == r
  {
    assert r * r < (r + 1) * (r + 1);
    RootUnique(r * r, r);
  }

  lemma SquareNonNegative(d: int)
    ensures d * d >= 0
  {
  }

  lemma FourProduct(a: nat, b: nat, m: nat)
    requires a + b <= 2 * m
    ensures a * b <= m * m
  {
    MulMonotone(b, a, 2 * m - b);
    var d := m - b;
    assert b * (2 * m - b) == (m - d) * (m + d) == m * m - d * d;
    SquareNonNegative(d);
  }

  lemma Quotient(n: nat, x: nat)
    requires x > 0
    ensures x * (n / x) <= n < x * (n / x + 1)
  {
    assert n == x * (n / x) + n % x;
    assert x * (n / x + 1) == x * (n / x) + x;
  }

  lemma MulMonotone(x: nat, a: nat, b: nat)
    ensures a <= b ==> x * a <= x * b
  {
    if a <= b {
      assert x * b == x * a + x * (b - a);
    }
  }

  /** One Newton step never falls below the root (with `q == n / x`, `x * (q + 1)` is at most the square of
      half their sum), and when it does not go down, `x` was the root already. */
  lemma NewtonStep(n: nat, x: nat, y: nat)
    requires x > 0 && n > 0 && y == (x + n / x) / 2
    ensures NotBelow(n, y) && y > 0
    ensures y >= x ==> NotAbove(n, x)
  {
    var q := n / x;
    Quotient(n, x);
    FourProduct(x, q + 1, y + 1);
    MulMonotone(x, x, q);
  }

  lemma FirstGuess(n: nat)
    requires n > 0
    ensures NotBelow(n, n) && NotBelow(n, (n + 1) / 2) && (n + 1) / 2 > 0
    ensures (n + 1) / 2 >= n ==> NotAbove(n, n)
  {
    var y := (n + 1) / 2;
    assert (n + 1) * (n + 1) == n * n + 2 * n + 1;
    assert (y + 1) * (y + 1) == y * y + 2 * y + 1;
  }

  /** Newton's iteration terminates at the exact floor square root. */
  method Isqrt(n: nat) returns (x: nat)
    ensures x == Root(n)
  {
    hide Root, NotAbove, NotBelow;
    if n == 0 {
      RootOfSquare(0);
      return 0;
    }
    FirstGuess(n);
    x := n;
    var y := (x + 1) / 2;
    while y < x
      invariant x > 0 && y > 0 && NotBelow(n, x) && NotBelow(n, y)
      invariant y >= x ==> NotAbove(n, x)
      decreases x
    {
      x := y;
      y := (x + n / x) / 2;
      NewtonStep(n, x, y);
    }
    RootUnique(n, x);
  }

  // ---- rounded corners ----

  function Min(a: nat, b: nat): nat { if a < b then a else b }

  /** `r * r - dy * dy`, saturating at 0. */
  function Deficit(r: nat, dy: nat): nat {
    if r * r < dy * dy then 0 else r * r - dy * dy
  }

  /** How far a circle of radius `r` is from its bounding box, `dy` rows from its centre. */
  ghost function CornerDrop(r: nat, dy: nat): (inset: nat)
    ensures inset <= r
  {
    RootMonotone(Deficit(r, dy), r * r);
    RootOfSquare(r);
    r - Root(Deficit(r, dy))
  }

  lemma DropMonotone(r: nat, dy: nat, dy': nat)
    requires dy <= dy'
    ensures CornerDrop(r, dy) <= CornerDrop(r, dy')
  {
    SquareMonotone(dy, dy');
    RootMonotone(Deficit(r, dy'), Deficit(r, dy));
  }

  /** How many pixels row `y` of `h` is inset on each side, corner radius `r`. */
  ghost function CornerInset(r: nat, y: nat, h: nat): nat {
    var r := Min(r, h / 2);
    if r == 0 then 0
    else if y < r then CornerDrop(r, r - y)
    else if y >= h - r then CornerDrop(r, y - (h - 1 - r))
    else 0
  }

  /** Distance of row `y` to the nearer of the first and last row. */
  function Edge(y: nat, h: nat): nat
    requires y < h
  {
    Min(y, h - 1 - y)
  }

  /** The inset at distance `e` from the edge, for a radius that fits. */
  ghost function InsetAt(r: nat, e: nat): (inset: nat)
    ensures inset <= r
  {
    if e >= r then 0 else CornerDrop(r, r - e)
  }

  /** The two corner branches agree: the inset depends on the distance to the edge alone, so the shape is
      mirror-symmetric top to bottom, and the inset never exceeds the (clamped) radius. */
  lemma InsetByEdge(r: nat, y: nat, h: nat)
    requires y < h
    ensures CornerInset(r, y, h) == InsetAt(Min(r, h / 2), Edge(y, h))
    ensures CornerInset(r, y, h) == CornerInset(r, h - 1 - y, h)
    ensures CornerInset(r, y, h) <= Min(r, h / 2)
  {
    hide CornerDrop;
  }

  /** Away from the edge the inset never grows. */
  lemma InsetShrinksInwards(r: nat, y: nat, y': nat, h: nat)
    requires y < h && y' < h && Edge(y, h) <= Edge(y', h)
    ensures CornerInset(r, y', h) <= CornerInset(r, y, h)
  {
    hide CornerInset, CornerDrop;
    InsetByEdge(r, y, h);
    InsetByEdge(r, y', h);
    var c := Min(r, h / 2);
    if Edge(y', h) < c {
      DropMonotone(c, c - Edge(y', h), c - Edge(y, h));
    }
  }

  lemma RootAtLeast(n: nat, x: nat)
    ensures x <= Root(n) <==> x * x <= n
  {
    SquareMonotone(x, Root(n));
    SquareMonotone(Root(n) + 1, x);
  }

  /** The inset is the circle: in a corner row, column `i` is past the inset exactly when the pixel lies
      inside the corner's circle. */
  lemma InsetIsCircle(r: nat, e: nat, i: nat)
    requires e < r && i <= r
    ensures InsetAt(r, e) <= i <==> (r - i) * (r - i) + (r - e) * (r - e) <= r * r
  {
    hide Root;
    SquareMonotone(r - e, r);
    RootAtLeast(r * r - (r - e) * (r - e), r - i);
  }

  /** Rows outside the corners are not inset at all. */
  lemma StraightRows(r: nat, y: nat, h: nat)
    requires y < h && Min(r, h / 2) <= Edge(y, h)
    ensures CornerInset(r, y, h) == 0
  {
  }

  /** Column `x` of row `y` lies in the `w` by `h` rectangle with corners of radius `r`: in a corner's square it
      lies in the corner's circle. */
  predicate InRoundedRect(w: nat, h: nat, r: nat, x: nat, y: nat) {
    && x < w && y < h
    && var ex, ey := Edge(x, w), Edge(y, h);
       ex < r && ey < r ==> (r - ex) * (r - ex) + (r - ey) * (r - ey) <= r * r
  }

  /** The insets cut exactly that shape out of the rectangle. */
  lemma InsetsCutShape(w: nat, h: nat, r: nat, x: nat, y: nat)
    requires y < h && r <= w / 2 && r <= h / 2
    ensures InRoundedRect(w, h, r, x, y) <==> CornerInset(r, y, h) <= x && x < w - CornerInset(r, y, h)
  {
    hide CornerInset, InsetAt;
    InsetByEdge(r, y, h);
    if x < w {
      var ex, ey := Edge(x, w), Edge(y, h);
      assert CornerInset(r, y, h) <= ex <==> CornerInset(r, y, h) <= x && x < w - CornerInset(r, y, h);
      if ey >= r {
        StraightRows(r, y, h);
      } else if ex <= r {
        InsetIsCircle(r, ey, ex);
        assert ex == r ==> (r - ex) * (r - ex) + (r - ey) * (r - ey) <= r * r by { SquareMonotone(r - ey, r); }
      }
    }
  }

  method ComputeDrop(r: nat, dy: nat) returns (drop: nat)
    ensures drop == CornerDrop(r, dy)
  {
    hide Root;
    RootMonotone(Deficit(r, dy), r * r);
    RootOfSquare(r);
    var root := Isqrt(Deficit(r, dy));
    drop := r - root;
  }

  /** `corner_inset` as the code computes it, with the Newton root. */
  method ComputeInset(r: nat, y: nat, h: nat) returns (inset: nat)
    requires y < h
    ensures inset == CornerInset(r, y, h)
  {
    hide CornerDrop;
    var c := Min(r, h / 2);
    if c == 0 {
      inset := 0;
    } else if y < c {
      inset := ComputeDrop(c, c - y);
    } else if y >= h - c {
      inset := ComputeDrop(c, y - (h - 1 - c));
    } else {
      inset := 0;
    }
  }

  // ---- blending ----

  /** `(dst * (256 - a) + src * a) / 256`, computed in 16 bits. */
  function Mix(dst: Byte, src: Byte, a: nat): (m: Byte)
    requires a <= 256
  {
    MixFits(dst, src, a);
    (dst * (256 - a) + src * a) / 256
  }

  /** No intermediate value of the blend leaves 16 bits, and the result is a byte. */
  lemma MixFits(dst: Byte, src: Byte, a: nat)
    requires a <= 256
    ensures 0 <= dst * (256 - a) && 0 <= src * a <= 0xFFFF && dst * (256 - a) + src * a <= 255 * 256 < 0x1_0000
    ensures 0 <= (dst * (256 - a) + src * a) / 256 <= 255
  {
    MulMonotone(256 - a, dst, 255);
    MulMonotone(a, src, 255);
    assert (256 - a) * 255 + a * 255 == 256 * 255;
  }

  /** `m` is the mix of `dst` and `src` at `a` / 256, rounded down. */
  predicate IsMix(dst: Byte, src: Byte, a: int, m: Byte) {
    0 <= 256 * dst + a * (src - dst) - 256 * m < 256
  }

  /** The blend is the mix of the two bytes at `a` / 256, rounded down: the old byte at 0, the new one at 256, and
      between them in between. */
  lemma MixExact(dst: Byte, src: Byte, a: nat)
    requires a <= 256
    ensures IsMix(dst, src, a, Mix(dst, src, a))
    ensures a == 0 ==> Mix(dst, src, a) == dst
    ensures a == 256 ==> Mix(dst, src, a) == src
    ensures Min(dst, src) <= Mix(dst, src, a) <= if dst < src then src else dst
  {
    assert dst * (256 - a) + src * a == 256 * dst + a * (src - dst);
    if dst <= src {
      MulMonotone(a, 0, src - dst);
      MulMonotone(src - dst, a, 256);
    } else {
      MulMonotone(a, 0, dst - src);
      MulMonotone(dst - src, a, 256);
      assert a * (src - dst) == -(a * (dst - src));
    }
  }

  /** Only one byte is the mix. */
  lemma MixUnique(dst: Byte, src: Byte, a: int, m: Byte, m': Byte)
    requires IsMix(dst, src, a, m) && IsMix(dst, src, a, m')
    ensures m == m'
  {
  }

  /** The table-driven blend: one entry per destination byte, three channels. */
  method BlendLut(c: seq<Byte>, alpha: nat) returns (t: seq<seq<Byte>>)
    requires |c| == 3
    ensures |t| == 3 && forall ch | 0 <= ch < 3 :: |t[ch]| == 256
    ensures forall ch, v: nat | 0 <= ch < 3 && 0 <= v < 256 :: t[ch][v] == Mix(v, c[ch], Min(alpha, 256))
  {
    hide Mix;
    var a := Min(alpha, 256);
    t := [];
    for ch := 0 to 3
      invariant |t| == ch && forall k | 0 <= k < ch :: |t[k]| == 256
      invariant forall k, v: nat | 0 <= k < ch && 0 <= v < 256 :: t[k][v] == Mix(v, c[k], a)
    {
      var row := LutRow(c[ch], a);
      t := t + [row];
    }
  }

  method LutRow(src: Byte, a: nat) returns (row: seq<Byte>)
    requires a <= 256
    ensures |row| == 256 && forall v: nat | 0 <= v < 256 :: row[v] == Mix(v, src, a)
  {
    row := [];
    var sa := src * a;
    for v := 0 to 256
      invariant |row| == v && forall k: nat | k < v :: row[k] == Mix(k, src, a)
    {
      MixFits(v, src, a);
      row := row + [(v * (256 - a) + sa) / 256];
    }
  }

  /** Grayscale luminance. */
  function Luma(c: Color): Byte {
    (c.r * 54 + c.g * 183 + c.b * 19) / 256
  }

  /** `v` is the weighted brightness of `c`, rounded down. */
  predicate IsLuma(c: Color, v: Byte) {
    256 * v <= 54 * c.r + 183 * c.g + 19 * c.b < 256 * (v + 1)
  }

  /** The gray of a color is its weighted brightness; a gray color keeps its level. */
  lemma LumaExact(c: Color)
    ensures IsLuma(c, Luma(c))
    ensures c.r == c.g == c.b ==> Luma(c) == c.r
  {
  }

  datatype Span = Span(start: nat, end: nat)

  predicate InSpan(x: nat, s: Option<Span>) {
    s.Some? && s.value.start <= x < s.value.end
  }

  /** The parts of `[xs, xe)` left and right of the hole `[hx, hx + hw)`: together every pixel outside the
      hole, none twice. */
  function SplitSpanAroundHole(xs: nat, xe: nat, hx: nat, hw: nat): (r: (Option<Span>, Option<Span>))
    ensures r.0.Some? ==> xs <= r.0.value.start < r.0.value.end <= xe
    ensures r.1.Some? ==> xs <= r.1.value.start < r.1.value.end <= xe
    ensures forall x: nat :: InSpan(x, r.0) || InSpan(x, r.1) <==> xs <= x < xe && !(hx <= x < hx + hw)
    ensures r.0.Some? && r.1.Some? ==> r.0.value.end <= r.1.value.start
  {
    var leftEnd := Min(xe, hx);
    var rightStart := if xs < hx + hw then hx + hw else xs;
    (if xs < leftEnd then Some(Span(xs, leftEnd)) else None,
     if rightStart < xe then Some(Span(rightStart, xe)) else None)
  }
}
