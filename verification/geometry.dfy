/** Pixel rectangles and the integer facts the layout proofs share. */
module Geometry {

  /** A rectangle in pixels: top-left corner and size (`BlobRect` / `Rectangle`). */
  datatype Rect = Rect(x: int, y: int, width: int, height: int)

  /** `r` lies inside an image of the given size. */
  predicate Inside(r: Rect, width: int, height: int) {
    0 <= r.x && r.x + r.width <= width && 0 <= r.y && r.y + r.height <= height
  }

  /** The height of one tile: `size`, or `size / 2` in isometric mode. */
  function TileHeight(size: int, isometric: bool): (h: int)
    ensures isometric ==> 2 * h <= size
    ensures !isometric ==> h == size
  {
    if isometric then size / 2 else size
  }

  /** Multiplying by a non-negative factor keeps order. */
  lemma MulMonotone(a: int, b: int, s: int)
    requires a <= b && s >= 0
    ensures a * s <= b * s
  {
    assert b * s - a * s == (b - a) * s;
  }

  /** Division and remainder are determined by any decomposition `n == q * d + m`. */
  lemma DivModUnique(n: int, d: int, q: int, m: int)
    requires d > 0 && 0 <= m < d && n == q * d + m
    ensures n / d == q && n % d == m
  {
    var q', m' := n / d, n % d;
    assert (q - q') * d == m' - m;
    if q > q' {
      MulMonotone(1, q - q', d);
    } else if q < q' {
      MulMonotone(1, q' - q, d);
    }
  }

  /** The whole multiples of `d` in `n` do not exceed it. */
  lemma QuotientTimesDivisor(n: int, d: int)
    requires d > 0
    ensures (n / d) * d <= n
  {
    DivModUnique(n, d, n / d, n % d);
  }

  /** `n` half-size cells fit in half of `n` full-size cells. */
  lemma HalfMultiple(n: nat, size: int)
    requires size >= 0
    ensures n * (size / 2) <= (n * size) / 2
  {
    var h := size / 2;
    MulMonotone(2 * h, size, n);
    assert 2 * (n * h) == n * (2 * h);
    DivModUnique(2 * (n * h), 2, n * h, 0);
  }

  /** Stepping `n` by one moves its remainder on by one, or wraps it to zero and moves the
      quotient on by one. */
  lemma DivModStep(n: nat, d: int)
    requires d > 0
    ensures (n + 1) % d == if n % d + 1 < d then n % d + 1 else 0
    ensures (n + 1) / d == if n % d + 1 < d then n / d else n / d + 1
  {
    var q, m := n / d, n % d;
    if m + 1 < d {
      DivModUnique(n + 1, d, q, m + 1);
    } else {
      DivModUnique(n + 1, d, q + 1, 0);
    }
  }

  /** Different cells of a grid of `w` by `h` cells do not overlap. */
  lemma CellsDisjoint(c1: int, r1: int, c2: int, r2: int, w: int, h: int)
    requires w > 0 && h > 0 && (c1 != c2 || r1 != r2)
    ensures || c1 * w + w <= c2 * w || c2 * w + w <= c1 * w
            || r1 * h + h <= r2 * h || r2 * h + h <= r1 * h
  {
    if c1 < c2 {
      MulMonotone(c1 + 1, c2, w);
    } else if c2 < c1 {
      MulMonotone(c2 + 1, c1, w);
    } else if r1 < r2 {
      MulMonotone(r1 + 1, r2, h);
    } else {
      MulMonotone(r2 + 1, r1, h);
    }
  }
}
