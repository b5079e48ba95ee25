/** The atlas `Generate` draws the 47 tiles into: its size (seven tiles square, or
    power-of-two sides) and where each tile goes (Blobator/Generator.cs). */
module Atlas {
  import opened Geometry
  import opened Numbers

  /** The number of canonical masks, hence of tiles. */
  const TileCount: nat := 47

  /** Tiles per row of the plain layout. */
  const Columns: nat := 7

  /** The search loop of `Generate`: raise the power from `p` until two to it reaches `n`. */
  function LeastPowerFrom(n: int, p: nat): (q: nat)
    ensures q >= p && Pow2(q) >= n
    ensures q == p || Pow2(q - 1) < n
    decreases if Pow2(p) < n then n - Pow2(p) else 0
  {
    if Pow2(p) < n then LeastPowerFrom(n, p + 1) else p
  }

  /** The least power of two that is at least `n` (1 when `n <= 1`). */
  function CeilPow2(n: int): (r: nat)
    ensures r >= n
    ensures exists p: nat :: r == Pow2(p)
  {
    var q := LeastPowerFrom(n, 0);
    assert Pow2(q) == Pow2(q);
    Pow2(q)
  }

  /** No smaller power of two reaches `n`. */
  lemma CeilPow2IsLeast(n: int, p: nat)
    requires Pow2(p) >= n
    ensures CeilPow2(n) <= Pow2(p)
  {
    var q := LeastPowerFrom(n, 0);
    if q > p {
      Pow2Monotone(p, q - 1);
    }
    Pow2Monotone(q, p);
  }

  /** A side of at least seven tiles holds at least seven of them. */
  lemma SevenPerRow(width: int, size: int)
    requires size > 0 && width >= Columns * size
    ensures width / size >= Columns
  {
    var q, m := width / size, width % size;
    if q < Columns {
      MulMonotone(q + 1, Columns, size);
    }
  }

  /** The atlas size as `Generate` computes it: seven tiles a side, or (power of two) the
      least power of two holding seven tiles across and `47 / perRow` rows down. */
  function AtlasSizeAsWritten(size: int, powerOfTwo: bool, isometric: bool): (wh: (int, int))
    requires size > 0
    ensures wh.0 >= Columns * size && PerRow(wh.0, size) >= Columns
    ensures !powerOfTwo ==> wh == (Columns * size, (Columns * size) / (if isometric then 2 else 1))
    ensures powerOfTwo ==> wh.0 == CeilPow2(Columns * size)
    ensures powerOfTwo ==>
      var rows := TileCount / PerRow(wh.0, size);
      wh.1 == CeilPow2(if isometric then (rows * size) / 2 else rows * size)
  {
    if powerOfTwo then
      var width := CeilPow2(Columns * size);
      SevenPerRow(width, size);
      var perRow := width / size;
      var rows := TileCount / perRow;
      var minimumHeight := if isometric then (rows * size) / 2 else rows * size;
      (width, CeilPow2(minimumHeight))
    else
      SevenPerRow(Columns * size, size);
      (Columns * size, (Columns * size) / (if isometric then 2 else 1))
  }

  /** The pen position for tile `k`: after each tile the pen moves right by `size` and,
      once it reaches the right edge, returns to the left one row down. With `lookahead`
      it instead returns when the next tile would not fit. */
  function Cursor(k: nat, size: int, tileHeight: int, width: int, lookahead: bool): (xy: (int, int))
  {
    if k == 0 then (0, 0)
    else
      var prev := Cursor(k - 1, size, tileHeight, width, lookahead);
      var x := prev.0 + size;
      if (if lookahead then x + size > width else x >= width) then (0, prev.1 + tileHeight)
      else (x, prev.1)
  }

  /** The pen never starts a tile at or past the right edge; with lookahead the whole tile
      fits across; and it never moves up. */
  lemma {:induction false} CursorWithinWidth(k: nat, size: int, tileHeight: int, width: int, lookahead: bool)
    requires size >= 0 && tileHeight >= 0 && width >= size && width > 0
    ensures var xy := Cursor(k, size, tileHeight, width, lookahead);
      && 0 <= xy.0 < width && 0 <= xy.1
      && (lookahead ==> xy.0 + size <= width)
  {
    if k > 0 {
      CursorWithinWidth(k - 1, size, tileHeight, width, lookahead);
    }
  }

  /** The pen wraps after column `c` (0-based). */
  predicate WrapsAfter(c: int, size: int, width: int, lookahead: bool) {
    if lookahead then (c + 1) * size + size > width else (c + 1) * size >= width
  }

  /** One pen move, from tile `k - 1` in closed form to tile `k` in closed form. */
  lemma CursorStep(k: nat, size: int, tileHeight: int, width: int, lookahead: bool, columns: int)
    requires size > 0 && columns >= 1 && k > 0
    requires var c, r := (k - 1) % columns, (k - 1) / columns;
      && Cursor(k - 1, size, tileHeight, width, lookahead) == (c * size, r * tileHeight)
      && (WrapsAfter(c, size, width, lookahead) <==> c + 1 == columns)
    ensures Cursor(k, size, tileHeight, width, lookahead) == ((k % columns) * size, (k / columns) * tileHeight)
  {
    var c, r := (k - 1) % columns, (k - 1) / columns;
    DivModStep(k - 1, columns);
    if c + 1 == columns {
      assert r * tileHeight + tileHeight == (r + 1) * tileHeight;
    } else {
      assert c * size + size == (c + 1) * size;
    }
  }

  /** When the pen wraps exactly after column `columns - 1`, tile `k` sits in column
      `k % columns` of row `k / columns`. */
  lemma {:induction false} CursorClosedForm(k: nat, size: int, tileHeight: int, width: int, lookahead: bool, columns: int)
    requires size > 0 && columns >= 1
    requires forall c | 0 <= c < columns :: WrapsAfter(c, size, width, lookahead) <==> c + 1 == columns
    ensures Cursor(k, size, tileHeight, width, lookahead) == ((k % columns) * size, (k / columns) * tileHeight)
  {
    if k > 0 {
      CursorClosedForm(k - 1, size, tileHeight, width, lookahead, columns);
      var c := (k - 1) % columns;
      assert WrapsAfter(c, size, width, lookahead) <==> c + 1 == columns;
      CursorStep(k, size, tileHeight, width, lookahead, columns);
    }
  }

  /** Tiles per row of the pen as written, which wraps only once `x` reaches the width:
      `ceil(width / size)`, the last of which may stick out. */
  function PenColumns(width: int, size: int): int
    requires size > 0
  {
    (width + size - 1) / size
  }

  /** Without lookahead the pen wraps after `ceil(width / size)` tiles. */
  lemma WrapColumnsAsWritten(size: int, width: int)
    requires size > 0 && width > 0
    ensures var columns := PenColumns(width, size);
      && columns >= 1
      && forall c | 0 <= c < columns :: WrapsAfter(c, size, width, false) <==> c + 1 == columns
  {
    var columns, m := PenColumns(width, size), (width + size - 1) % size;
    assert columns * size == width + size - 1 - m;
    if columns < 1 {
      MulMonotone(columns, 0, size);
    }
    forall c | 0 <= c < columns
      ensures WrapsAfter(c, size, width, false) <==> c + 1 == columns
    {
      if c + 1 < columns {
        MulMonotone(c + 1, columns - 1, size);
      }
    }
  }

  /** With lookahead the pen wraps after `width / size` tiles. */
  lemma WrapColumnsLookahead(size: int, width: int)
    requires size > 0 && width >= size
    ensures var columns := width / size;
      && columns >= 1
      && forall c | 0 <= c < columns :: WrapsAfter(c, size, width, true) <==> c + 1 == columns
  {
    var columns, m := width / size, width % size;
    if columns < 1 {
      MulMonotone(columns, 0, size);
    }
    forall c | 0 <= c < columns
      ensures WrapsAfter(c, size, width, true) <==> c + 1 == columns
    {
      if c + 1 < columns {
        MulMonotone(c + 2, columns, size);
      }
    }
  }

  /** An atlas at least seven tiles wide gives the pen as written at least seven columns. */
  lemma SevenPenColumns(width: int, size: int)
    requires size > 0 && width >= Columns * size
    ensures PenColumns(width, size) >= Columns
  {
    var c := PenColumns(width, size);
    QuotientTimesDivisor(width + size - 1, size);
    DivModUnique(width + size - 1, size, c, (width + size - 1) % size);
    if c < Columns {
      MulMonotone(c + 1, Columns, size);
    }
  }

  /** Where `Generate` draws tile `k`: column `k % columns` of row `k / columns`, where
      `columns` is `ceil(width / size)` for the as-written atlas width. */
  function PenRect(k: nat, size: int, powerOfTwo: bool, isometric: bool): (r: Rect)
    requires size > 0
    ensures r.width == size && r.height == TileHeight(size, isometric)
  {
    var width := AtlasSizeAsWritten(size, powerOfTwo, isometric).0;
    SevenPenColumns(width, size);
    var columns := PenColumns(width, size);
    Rect((k % columns) * size, (k / columns) * TileHeight(size, isometric), size, TileHeight(size, isometric))
  }

  /** The rectangle of tile `k` is where the pen loop of `Generate`, with its wrap test as
      written, stands after `k` tiles. */
  lemma PenRectIsCursor(k: nat, size: int, powerOfTwo: bool, isometric: bool)
    requires size > 0
    ensures var width := AtlasSizeAsWritten(size, powerOfTwo, isometric).0;
      var r := PenRect(k, size, powerOfTwo, isometric);
      (r.x, r.y) == Cursor(k, size, TileHeight(size, isometric), width, false)
  {
    var width := AtlasSizeAsWritten(size, powerOfTwo, isometric).0;
    SevenPenColumns(width, size);
    WrapColumnsAsWritten(size, width);
    CursorClosedForm(k, size, TileHeight(size, isometric), width, false, PenColumns(width, size));
  }

  /** Distinct tiles of the as-written layout occupy disjoint cells, once tiles have height:
      a tile may stick out of the atlas, but never into another tile. */
  lemma PenRectsDisjoint(j: nat, k: nat, size: int, powerOfTwo: bool, isometric: bool)
    requires size > 0 && TileHeight(size, isometric) > 0 && j != k
    ensures var a, b := PenRect(j, size, powerOfTwo, isometric), PenRect(k, size, powerOfTwo, isometric);
      || a.x + a.width <= b.x || b.x + b.width <= a.x
      || a.y + a.height <= b.y || b.y + b.height <= a.y
  {
    var width := AtlasSizeAsWritten(size, powerOfTwo, isometric).0;
    var columns := PenColumns(width, size);
    SevenPenColumns(width, size);
    CellsDisjoint(j % columns, j / columns, k % columns, k / columns, size, TileHeight(size, isometric));
  }

  /** With at least seven columns, the 47 tiles fill at most seven rows, so the row of tile
      `k` ends within seven tile heights. */
  lemma PenRowWithinSeven(k: nat, columns: int, tileHeight: int)
    requires columns >= Columns && k < TileCount && tileHeight >= 0
    ensures 0 <= (k / columns) * tileHeight
    ensures (k / columns) * tileHeight + tileHeight <= Columns * tileHeight
  {
    var row := k / columns;
    assert 0 <= row < Columns by {
      MulMonotone(Columns, columns, Columns);
      RowBelow(k, columns, Columns);
    }
    MulMonotone(row + 1, Columns, tileHeight);
    MulMonotone(0, row, tileHeight);
  }

  /** On a canvas at least seven tiles wide, the pen as written starts each of the 47 tiles
      left of the right edge and within the first seven rows. */
  lemma PenStartsInside(k: nat, size: int, tileHeight: int, width: int)
    requires size > 0 && 0 <= tileHeight <= size && width >= Columns * size && k < TileCount
    ensures var xy := Cursor(k, size, tileHeight, width, false);
      && 0 <= xy.0 < width
      && 0 <= xy.1 && xy.1 + tileHeight <= Columns * tileHeight <= width
  {
    var columns := PenColumns(width, size);
    var xy := Cursor(k, size, tileHeight, width, false);
    assert 0 <= xy.0 < width by {
      CursorWithinWidth(k, size, tileHeight, width, false);
    }
    SevenPenColumns(width, size);
    assert xy.1 == (k / columns) * tileHeight by {
      WrapColumnsAsWritten(size, width);
      CursorClosedForm(k, size, tileHeight, width, false, columns);
    }
    PenRowWithinSeven(k, columns, tileHeight);
    assert Columns * tileHeight <= width by {
      MulMonotone(tileHeight, size, Columns);
    }
  }

  /** Every one of the 47 tiles of the as-written layout starts left of the atlas's right
      edge and within its first seven rows of tiles, so no coordinate exceeds the width. */
  lemma PenRectStarts(k: nat, size: int, powerOfTwo: bool, isometric: bool)
    requires size > 0 && k < TileCount
    ensures var r := PenRect(k, size, powerOfTwo, isometric);
      var width := AtlasSizeAsWritten(size, powerOfTwo, isometric).0;
      && 0 <= r.x < width
      && 0 <= r.y && r.y + r.height <= Columns * TileHeight(size, isometric) <= width
  {
    PenRectIsCursor(k, size, powerOfTwo, isometric);
    PenStartsInside(k, size, TileHeight(size, isometric), AtlasSizeAsWritten(size, powerOfTwo, isometric).0);
  }

  /** At `size` 37 power-of-two mode makes a 512 by 128 atlas. */
  lemma PowerOfTwoAtlas37()
    ensures AtlasSizeAsWritten(37, true, false) == (512, 128)
  {
    assert LeastPowerFrom(259, 0) == 9;
    assert CeilPow2(259) == 512;
    assert 512 / 37 == 13 && 47 / 13 == 3;
    assert LeastPowerFrom(111, 0) == 7;
    assert CeilPow2(111) == 128;
  }

  /** Power-of-two mode can push tiles off the atlas. At `size` 37 the atlas is 512 by 128,
      yet the pen only wraps once it reaches 512, so tile 13 starts at x = 481 and ends at 518;
      and 47 tiles need four rows of 14, so tile 46 starts at y = 111 and ends at 148. */
  lemma PowerOfTwoOverflow()
    ensures AtlasSizeAsWritten(37, true, false) == (512, 128)
    ensures PenRect(13, 37, true, false) == Rect(481, 0, 37, 37) && !Inside(Rect(481, 0, 37, 37), 512, 128)
    ensures PenRect(46, 37, true, false) == Rect(148, 111, 37, 37) && !Inside(Rect(148, 111, 37, 37), 512, 128)
  {
    PowerOfTwoAtlas37();
    assert PenColumns(512, 37) == 14;
  }

  /** Tiles per row of the corrected layout: as many as fit across. */
  function PerRow(width: int, size: int): int
    requires size > 0
  {
    width / size
  }

  /** The atlas size with the row count rounded up, so that every tile has a row. */
  function AtlasSize(size: int, powerOfTwo: bool, isometric: bool): (wh: (int, int))
    requires size > 0
    ensures wh.0 >= Columns * size && PerRow(wh.0, size) >= Columns
  {
    if powerOfTwo then
      var width := CeilPow2(Columns * size);
      SevenPerRow(width, size);
      var perRow := PerRow(width, size);
      var rows := (TileCount + perRow - 1) / perRow;
      var minimumHeight := if isometric then (rows * size) / 2 else rows * size;
      (width, CeilPow2(minimumHeight))
    else
      SevenPerRow(Columns * size, size);
      (Columns * size, (Columns * size) / (if isometric then 2 else 1))
  }

  /** Power-of-two height grows with the height it must hold. */
  lemma CeilPow2Monotone(a: int, b: int)
    requires a <= b
    ensures CeilPow2(a) <= CeilPow2(b)
  {
    CeilPow2IsLeast(a, LeastPowerFrom(b, 0));
  }

  /** Rounding a quotient up never gives less than rounding it down. */
  lemma RoundUpAtLeastDown(n: nat, d: int)
    requires d >= 1
    ensures n / d <= (n + d - 1) / d
  {
    var down, up := n / d, (n + d - 1) / d;
    QuotientTimesDivisor(n, d);
    DivModUnique(n + d - 1, d, up, (n + d - 1) % d);
    if up < down {
      MulMonotone(up + 1, down, d);
    }
  }

  /** More rows never need a smaller power-of-two height. */
  lemma RowsHeightMonotone(down: nat, up: nat, size: int, isometric: bool)
    requires down <= up && size > 0
    ensures CeilPow2(if isometric then (down * size) / 2 else down * size)
         <= CeilPow2(if isometric then (up * size) / 2 else up * size)
  {
    MulMonotone(down, up, size);
    CeilPow2Monotone(if isometric then (down * size) / 2 else down * size,
                     if isometric then (up * size) / 2 else up * size);
  }

  /** The correction keeps the atlas width, and the whole plain-mode atlas; in power-of-two
      mode it only makes the atlas taller, by rounding the row count up. */
  lemma CorrectionOnlyGrowsHeight(size: int, powerOfTwo: bool, isometric: bool)
    requires size > 0
    ensures var fixed, written := AtlasSize(size, powerOfTwo, isometric), AtlasSizeAsWritten(size, powerOfTwo, isometric);
      && fixed.0 == written.0
      && (!powerOfTwo ==> fixed == written)
      && fixed.1 >= written.1
  {
    if powerOfTwo {
      var perRow := PerRow(CeilPow2(Columns * size), size);
      RoundUpAtLeastDown(TileCount, perRow);
      RowsHeightMonotone(TileCount / perRow, (TileCount + perRow - 1) / perRow, size, isometric);
    }
  }

  /** Where the corrected layout puts tile `k`: column `k % perRow` of row `k / perRow`. */
  function TileRect(k: nat, size: int, powerOfTwo: bool, isometric: bool): (r: Rect)
    requires size > 0
    ensures r.width == size && r.height == TileHeight(size, isometric)
  {
    var perRow := PerRow(AtlasSize(size, powerOfTwo, isometric).0, size);
    Rect((k % perRow) * size, (k / perRow) * TileHeight(size, isometric), size, TileHeight(size, isometric))
  }

  /** The corrected layout is what the pen produces when it wraps before a tile that would
      not fit. */
  lemma TileRectIsCursor(k: nat, size: int, powerOfTwo: bool, isometric: bool)
    requires size > 0
    ensures var width := AtlasSize(size, powerOfTwo, isometric).0;
      var r := TileRect(k, size, powerOfTwo, isometric);
      (r.x, r.y) == Cursor(k, size, TileHeight(size, isometric), width, true)
  {
    var width := AtlasSize(size, powerOfTwo, isometric).0;
    MulMonotone(1, Columns, size);
    WrapColumnsLookahead(size, width);
    CursorClosedForm(k, size, TileHeight(size, isometric), width, true, width / size);
  }

  /** In the plain layout (seven tiles a side) the pen as written and the corrected layout
      agree: the wrap test `x >= width` fires after exactly seven tiles. */
  lemma PlainLayoutAsWritten(k: nat, size: int, isometric: bool)
    requires size > 0
    ensures PenRect(k, size, false, isometric) == TileRect(k, size, false, isometric)
  {
    DivModUnique(Columns * size + size - 1, size, Columns, size - 1);
    DivModUnique(Columns * size, size, Columns, 0);
  }

  /** The number of rows the corrected layout provides. */
  function Rows(size: int, powerOfTwo: bool, isometric: bool): (rows: nat)
    requires size > 0
  {
    if powerOfTwo then
      var perRow := PerRow(AtlasSize(size, powerOfTwo, isometric).0, size);
      (TileCount + perRow - 1) / perRow
    else Columns
  }

  /** Rounding up the quotient covers the dividend. */
  lemma CeilDivCovers(n: nat, d: int)
    requires d >= 1
    ensures ((n + d - 1) / d) * d >= n
  {
    var q, m := (n + d - 1) / d, (n + d - 1) % d;
    assert q * d == n + d - 1 - m;
  }

  /** An index below `rows * perRow` lies in one of the first `rows` rows. */
  lemma RowBelow(k: nat, perRow: int, rows: int)
    requires perRow >= 1 && k < rows * perRow
    ensures k / perRow < rows
  {
    if k / perRow >= rows {
      MulMonotone(rows, k / perRow, perRow);
    }
  }

  /** Each of the 47 tiles has a row. */
  lemma TileRowExists(k: nat, size: int, powerOfTwo: bool, isometric: bool)
    requires size > 0 && k < TileCount
    ensures k / PerRow(AtlasSize(size, powerOfTwo, isometric).0, size) < Rows(size, powerOfTwo, isometric)
  {
    var perRow := PerRow(AtlasSize(size, powerOfTwo, isometric).0, size);
    var rows := Rows(size, powerOfTwo, isometric);
    if powerOfTwo {
      CeilDivCovers(TileCount, perRow);
    } else {
      MulMonotone(Columns, perRow, Columns);
    }
    RowBelow(k, perRow, rows);
  }

  /** The rows fit the atlas height. */
  lemma RowsFit(size: int, powerOfTwo: bool, isometric: bool)
    requires size > 0
    ensures Rows(size, powerOfTwo, isometric) * TileHeight(size, isometric) <= AtlasSize(size, powerOfTwo, isometric).1
  {
    if isometric {
      HalfMultiple(Rows(size, powerOfTwo, isometric), size);
    }
  }

  /** A cell of a grid of `columns` by `rows` cells of `w` by `h` pixels lies inside any
      image at least that large. */
  lemma CellInside(column: int, row: int, columns: int, rows: int, w: int, h: int, width: int, height: int)
    requires 0 <= column < columns && 0 <= row < rows && w >= 0 && h >= 0
    requires columns * w <= width && rows * h <= height
    ensures Inside(Rect(column * w, row * h, w, h), width, height)
  {
    MulMonotone(column + 1, columns, w);
    MulMonotone(row + 1, rows, h);
    MulMonotone(0, column, w);
    MulMonotone(0, row, h);
  }

  /** Every one of the 47 tiles of the corrected layout lies inside the atlas, in both modes. */
  lemma TilesInsideAtlas(k: nat, size: int, powerOfTwo: bool, isometric: bool)
    requires size > 0 && k < TileCount
    ensures var wh := AtlasSize(size, powerOfTwo, isometric);
      Inside(TileRect(k, size, powerOfTwo, isometric), wh.0, wh.1)
  {
    var wh := AtlasSize(size, powerOfTwo, isometric);
    var perRow := PerRow(wh.0, size);
    var rows := Rows(size, powerOfTwo, isometric);
    var h := TileHeight(size, isometric);
    assert perRow * size <= wh.0 by {
      QuotientTimesDivisor(wh.0, size);
    }
    assert k / perRow < rows by {
      TileRowExists(k, size, powerOfTwo, isometric);
    }
    assert rows * h <= wh.1 by {
      RowsFit(size, powerOfTwo, isometric);
    }
    assert TileRect(k, size, powerOfTwo, isometric) == Rect((k % perRow) * size, (k / perRow) * h, size, h);
    CellInside(k % perRow, k / perRow, perRow, rows, size, h, wh.0, wh.1);
  }

  /** Distinct tiles of the corrected layout occupy disjoint cells, once tiles have height. */
  lemma TileRectsDisjoint(j: nat, k: nat, size: int, powerOfTwo: bool, isometric: bool)
    requires size > 0 && TileHeight(size, isometric) > 0 && j != k
    ensures var a, b := TileRect(j, size, powerOfTwo, isometric), TileRect(k, size, powerOfTwo, isometric);
      || a.x + a.width <= b.x || b.x + b.width <= a.x
      || a.y + a.height <= b.y || b.y + b.height <= a.y
  {
    var perRow := PerRow(AtlasSize(size, powerOfTwo, isometric).0, size);
    var h := TileHeight(size, isometric);
    assert TileRect(j, size, powerOfTwo, isometric) == Rect((j % perRow) * size, (j / perRow) * h, size, h);
    assert TileRect(k, size, powerOfTwo, isometric) == Rect((k % perRow) * size, (k / perRow) * h, size, h);
    CellsDisjoint(j % perRow, j / perRow, k % perRow, k / perRow, size, h);
  }
}
