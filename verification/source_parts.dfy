/** Slicing a hand-drawn source image into quadrant sprites: the size checks, the choice
    between 13 micro parts and 20 macro parts, and the crop rectangles of
    `GetParts(source, size, isometric)` (Blobator/Generator.cs). Pixels are not modelled: a
    crop is its rectangle. */
module SourceParts {
  import opened Results
  import opened Geometry

  /** Why slicing (or any bitmap allocation) fails. */
  datatype PartsError =
    | InsufficientSource(minimumWidth: int, minimumHeight: int, width: int, height: int)
    | InvalidBitmapSize(width: int, height: int)

  /** The cells of the micro layout (three columns, five rows), in `PartMicro` order. */
  const MicroCells: seq<(nat, nat)> := [
    (1, 0), (2, 0), (1, 1), (2, 1),
    (0, 2), (1, 2), (2, 2),
    (0, 3), (1, 3), (2, 3),
    (0, 4), (1, 4), (2, 4)
  ]

  /** The cells of the macro layout (four columns, six rows), in `Part` order. */
  const MacroCells: seq<(nat, nat)> := [
    (2, 0), (3, 0), (2, 1), (3, 1),
    (0, 2), (1, 2), (2, 2), (3, 2),
    (0, 3), (1, 3), (2, 3), (3, 3),
    (0, 4), (1, 4), (2, 4), (3, 4),
    (0, 5), (1, 5), (2, 5), (3, 5)
  ]

  /** Every micro cell lies in the 3-by-5 grid. */
  lemma MicroCellsInGrid()
    ensures |MicroCells| == 13
    ensures forall k | 0 <= k < |MicroCells| :: MicroCells[k].0 < 3 && MicroCells[k].1 < 5
  {
  }

  /** Every macro cell lies in the 4-by-6 grid. */
  lemma MacroCellsInGrid()
    ensures |MacroCells| == 20
    ensures forall k | 0 <= k < |MacroCells| :: MacroCells[k].0 < 4 && MacroCells[k].1 < 6
  {
  }

  /** The smallest source image accepted: three cells across and five down. */
  function MinimumSize(size: int, isometric: bool): (int, int) {
    (3 * size, if isometric then (5 * size) / 2 else 5 * size)
  }

  /** The smallest source image that holds the macro layout: four cells across, six down. */
  function MacroSize(size: int, isometric: bool): (int, int) {
    (4 * size, if isometric then (6 * size) / 2 else 6 * size)
  }

  /** The crop rectangles of a cell layout. */
  function Crops(cells: seq<(nat, nat)>, size: int, isometric: bool): (rs: seq<Rect>)
    ensures |rs| == |cells|
    ensures forall k | 0 <= k < |cells| ::
      rs[k] == Rect(cells[k].0 * size, cells[k].1 * TileHeight(size, isometric), size, TileHeight(size, isometric))
  {
    seq(|cells|, k requires 0 <= k < |cells| =>
      Rect(cells[k].0 * size, cells[k].1 * TileHeight(size, isometric), size, TileHeight(size, isometric)))
  }

  /** `GetParts(source, size, isometric)` on a `width` by `height` image: rejects an image
      smaller than `MinimumSize`, then cuts the 13 micro parts when the image is smaller than
      `MacroSize` and the 20 macro parts otherwise. Cutting a part allocates a `size` by
      `TileHeight(size, isometric)` bitmap, which fails unless both are positive. */
  function SliceSource(size: int, isometric: bool, width: int, height: int): (r: Result<seq<Rect>, PartsError>)
    ensures var minimum := MinimumSize(size, isometric);
      r.Err? <==> width < minimum.0 || height < minimum.1 || size <= 0 || TileHeight(size, isometric) <= 0
    ensures r.Ok? ==> forall k | 0 <= k < |r.value| :: Inside(r.value[k], width, height)
  {
    var minimum := MinimumSize(size, isometric);
    if width < minimum.0 || height < minimum.1 then
      Err(InsufficientSource(minimum.0, minimum.1, width, height))
    else
      var macro := MacroSize(size, isometric);
      var micro := width < macro.0 || height < macro.1;
      if size <= 0 || TileHeight(size, isometric) <= 0 then
        Err(InvalidBitmapSize(size, TileHeight(size, isometric)))
      else if micro then
        MicroCellsInGrid();
        CropsInside(MicroCells, 3, 5, size, isometric, width, height);
        Ok(Crops(MicroCells, size, isometric))
      else
        MacroCellsInGrid();
        CropsInside(MacroCells, 4, 6, size, isometric, width, height);
        Ok(Crops(MacroCells, size, isometric))
  }

  /** The size check comes first and names both sizes. */
  lemma SliceSourceRejectsSmall(size: int, isometric: bool, width: int, height: int)
    ensures var minimum := MinimumSize(size, isometric);
      (width < minimum.0 || height < minimum.1) <==>
        SliceSource(size, isometric, width, height) == Err(InsufficientSource(minimum.0, minimum.1, width, height))
  {
  }

  /** A successful slice has 13 parts exactly when the image is below the macro size, and 20
      otherwise; each is a cell of the layout. */
  lemma SliceSourceMicroIffSmall(size: int, isometric: bool, width: int, height: int)
    requires SliceSource(size, isometric, width, height).Ok?
    ensures var parts := SliceSource(size, isometric, width, height).value;
      var macro := MacroSize(size, isometric);
      && (|parts| == 13 <==> width < macro.0 || height < macro.1)
      && (|parts| == 20 <==> !(width < macro.0 || height < macro.1))
      && parts == Crops(if |parts| == 13 then MicroCells else MacroCells, size, isometric)
  {
    MicroCellsInGrid();
    MacroCellsInGrid();
  }

  /** A crop of cell (`column`, `row`) of a `columns` by `rows` grid lies inside an image
      that holds the grid. */
  lemma CropInside(column: nat, row: nat, columns: nat, rows: nat, size: int, isometric: bool, width: int, height: int)
    requires size > 0 && column < columns && row < rows
    requires width >= columns * size
    requires height >= (if isometric then (rows * size) / 2 else rows * size)
    ensures Inside(Rect(column * size, row * TileHeight(size, isometric), size, TileHeight(size, isometric)), width, height)
  {
    var h := TileHeight(size, isometric);
    if isometric {
      HalfMultiple(rows, size);
    }
    MulMonotone(column + 1, columns, size);
    MulMonotone(row + 1, rows, h);
    MulMonotone(0, column, size);
    MulMonotone(0, row, h);
  }

  /** Every crop of a layout whose cells lie in a `columns` by `rows` grid lies inside an
      image that holds the grid. */
  lemma CropsInside(cells: seq<(nat, nat)>, columns: nat, rows: nat, size: int, isometric: bool, width: int, height: int)
    requires size > 0 && forall k | 0 <= k < |cells| :: cells[k].0 < columns && cells[k].1 < rows
    requires width >= columns * size
    requires height >= (if isometric then (rows * size) / 2 else rows * size)
    ensures forall k | 0 <= k < |cells| :: Inside(Crops(cells, size, isometric)[k], width, height)
  {
    forall k | 0 <= k < |cells|
      ensures Inside(Crops(cells, size, isometric)[k], width, height)
    {
      CropInside(cells[k].0, cells[k].1, columns, rows, size, isometric, width, height);
    }
  }

}
