/** Quadrant parts: how `Generate` picks one of the `Part` / `PartMicro` sprites for each
    quadrant of a tile, and where it draws it (Blobator/Generator.cs). */
module Parts {
  import opened Results
  import opened Masks
  import opened Geometry

  /** What a quadrant of a tile shows, read off the two edge neighbours and the diagonal. */
  datatype Shape = Full | CornerInner | CornerOuter | EdgeHorizontal | EdgeVertical

  /** The four quadrants in the order `Generate` draws them. */
  const Quadrants: seq<Corner> := [TopLeftCorner, TopRightCorner, BottomLeftCorner, BottomRightCorner]

  /** The decision table of one quadrant: with both edge neighbours the diagonal decides
      between full and inner corner; with one edge the matching edge piece; with none the
      outer corner. */
  function SelectShape(m: Mask, q: Corner): (s: Shape)
    ensures s == Full <==> Supported(m, q) && Has(m, q.Diagonal())
    ensures s == CornerInner <==> Supported(m, q) && !Has(m, q.Diagonal())
    ensures s == EdgeVertical <==> Has(m, q.Vertical()) && !Has(m, q.Horizontal())
    ensures s == EdgeHorizontal <==> !Has(m, q.Vertical()) && Has(m, q.Horizontal())
    ensures s == CornerOuter <==> !Has(m, q.Vertical()) && !Has(m, q.Horizontal())
  {
    var vertical := Has(m, q.Vertical());
    var horizontal := Has(m, q.Horizontal());
    if vertical && horizontal then
      if Has(m, q.Diagonal()) then Full else CornerInner
    else if vertical then EdgeVertical
    else if horizontal then EdgeHorizontal
    else CornerOuter
  }

  /** A macro sprite: one of five shapes for one of four quadrants. */
  datatype PartRef = PartRef(quadrant: Corner, shape: Shape)

  /** The `Part` enumeration value of a macro sprite. */
  function PartValue(p: PartRef): (v: int)
    ensures 0 <= v < 20
  {
    match p
    case PartRef(BottomRightCorner, CornerInner) => 0
    case PartRef(BottomLeftCorner, CornerInner) => 1
    case PartRef(TopRightCorner, CornerInner) => 2
    case PartRef(TopLeftCorner, CornerInner) => 3
    case PartRef(TopLeftCorner, CornerOuter) => 4
    case PartRef(TopLeftCorner, EdgeHorizontal) => 6
    case PartRef(TopLeftCorner, EdgeVertical) => 12
    case PartRef(TopLeftCorner, Full) => 14
    case PartRef(BottomLeftCorner, CornerOuter) => 16
    case PartRef(BottomLeftCorner, EdgeHorizontal) => 18
    case PartRef(BottomLeftCorner, EdgeVertical) => 8
    case PartRef(BottomLeftCorner, Full) => 10
    case PartRef(TopRightCorner, CornerOuter) => 7
    case PartRef(TopRightCorner, EdgeHorizontal) => 5
    case PartRef(TopRightCorner, EdgeVertical) => 15
    case PartRef(TopRightCorner, Full) => 13
    case PartRef(BottomRightCorner, CornerOuter) => 19
    case PartRef(BottomRightCorner, EdgeHorizontal) => 17
    case PartRef(BottomRightCorner, EdgeVertical) => 11
    case PartRef(BottomRightCorner, Full) => 9
  }

  /** The macro sprite stored at position `v` of a 20-part list, if any. */
  function PartAt(v: int): (p: Option<PartRef>)
    ensures p.Some? <==> 0 <= v < 20
  {
    if v == 0 then Some(PartRef(BottomRightCorner, CornerInner))
    else if v == 1 then Some(PartRef(BottomLeftCorner, CornerInner))
    else if v == 2 then Some(PartRef(TopRightCorner, CornerInner))
    else if v == 3 then Some(PartRef(TopLeftCorner, CornerInner))
    else if v == 4 then Some(PartRef(TopLeftCorner, CornerOuter))
    else if v == 5 then Some(PartRef(TopRightCorner, EdgeHorizontal))
    else if v == 6 then Some(PartRef(TopLeftCorner, EdgeHorizontal))
    else if v == 7 then Some(PartRef(TopRightCorner, CornerOuter))
    else if v == 8 then Some(PartRef(BottomLeftCorner, EdgeVertical))
    else if v == 9 then Some(PartRef(BottomRightCorner, Full))
    else if v == 10 then Some(PartRef(BottomLeftCorner, Full))
    else if v == 11 then Some(PartRef(BottomRightCorner, EdgeVertical))
    else if v == 12 then Some(PartRef(TopLeftCorner, EdgeVertical))
    else if v == 13 then Some(PartRef(TopRightCorner, Full))
    else if v == 14 then Some(PartRef(TopLeftCorner, Full))
    else if v == 15 then Some(PartRef(TopRightCorner, EdgeVertical))
    else if v == 16 then Some(PartRef(BottomLeftCorner, CornerOuter))
    else if v == 17 then Some(PartRef(BottomRightCorner, EdgeHorizontal))
    else if v == 18 then Some(PartRef(BottomLeftCorner, EdgeHorizontal))
    else if v == 19 then Some(PartRef(BottomRightCorner, CornerOuter))
    else None
  }

  /** The `Part` values are a bijection between the twenty macro sprites and 0..19. */
  lemma PartValueBijective(p: PartRef, v: int)
    ensures PartAt(PartValue(p)) == Some(p)
    ensures 0 <= v < 20 ==> PartValue(PartAt(v).value) == v
  {
  }

  /** A micro sprite. The edge pieces are shared between the two quadrants of a row or a
      column and the full piece between all four. */
  datatype MicroPart =
    | MicroCornerInner(corner: Corner)
    | MicroCornerOuter(corner: Corner)
    | MicroEdgeHorizontal(topRow: bool)
    | MicroEdgeVertical(leftColumn: bool)
    | MicroFull

  /** The `PartMicro` enumeration value of a micro sprite. */
  function MicroValue(p: MicroPart): (v: int)
    ensures 0 <= v < 13
  {
    match p
    case MicroCornerInner(BottomRightCorner) => 0
    case MicroCornerInner(BottomLeftCorner) => 1
    case MicroCornerInner(TopRightCorner) => 2
    case MicroCornerInner(TopLeftCorner) => 3
    case MicroCornerOuter(TopLeftCorner) => 4
    case MicroEdgeHorizontal(true) => 5
    case MicroCornerOuter(TopRightCorner) => 6
    case MicroEdgeVertical(true) => 7
    case MicroFull => 8
    case MicroEdgeVertical(false) => 9
    case MicroCornerOuter(BottomLeftCorner) => 10
    case MicroEdgeHorizontal(false) => 11
    case MicroCornerOuter(BottomRightCorner) => 12
  }

  /** The micro sprite stored at position `v` of a 13-part list, if any. */
  function MicroAt(v: int): (p: Option<MicroPart>)
    ensures p.Some? <==> 0 <= v < 13
  {
    if v == 0 then Some(MicroCornerInner(BottomRightCorner))
    else if v == 1 then Some(MicroCornerInner(BottomLeftCorner))
    else if v == 2 then Some(MicroCornerInner(TopRightCorner))
    else if v == 3 then Some(MicroCornerInner(TopLeftCorner))
    else if v == 4 then Some(MicroCornerOuter(TopLeftCorner))
    else if v == 5 then Some(MicroEdgeHorizontal(true))
    else if v == 6 then Some(MicroCornerOuter(TopRightCorner))
    else if v == 7 then Some(MicroEdgeVertical(true))
    else if v == 8 then Some(MicroFull)
    else if v == 9 then Some(MicroEdgeVertical(false))
    else if v == 10 then Some(MicroCornerOuter(BottomLeftCorner))
    else if v == 11 then Some(MicroEdgeHorizontal(false))
    else if v == 12 then Some(MicroCornerOuter(BottomRightCorner))
    else None
  }

  /** The `PartMicro` values are a bijection between the thirteen micro sprites and 0..12. */
  lemma MicroValueBijective(p: MicroPart, v: int)
    ensures MicroAt(MicroValue(p)) == Some(p)
    ensures 0 <= v < 13 ==> MicroValue(MicroAt(v).value) == v
  {
  }

  /** Quadrant `q` is in the top row of the tile. */
  predicate TopRow(q: Corner) {
    q == TopLeftCorner || q == TopRightCorner
  }

  /** Quadrant `q` is in the left column of the tile. */
  predicate LeftColumn(q: Corner) {
    q == TopLeftCorner || q == BottomLeftCorner
  }

  /** The micro sprite that stands in for a macro sprite. */
  function Shared(p: PartRef): (r: MicroPart)
    ensures r == MicroFull <==> p.shape == Full
    ensures r.MicroCornerInner? ==> r.corner == p.quadrant
    ensures r.MicroCornerOuter? ==> r.corner == p.quadrant
    ensures r.MicroEdgeHorizontal? ==> p.shape == EdgeHorizontal && r.topRow == TopRow(p.quadrant)
    ensures r.MicroEdgeVertical? ==> p.shape == EdgeVertical && r.leftColumn == LeftColumn(p.quadrant)
  {
    match p.shape
    case Full => MicroFull
    case CornerInner => MicroCornerInner(p.quadrant)
    case CornerOuter => MicroCornerOuter(p.quadrant)
    case EdgeHorizontal => MicroEdgeHorizontal(TopRow(p.quadrant))
    case EdgeVertical => MicroEdgeVertical(LeftColumn(p.quadrant))
  }

  /** Within one quadrant, different shapes give different micro sprites: sharing loses
      nothing a single quadrant needs. */
  lemma SharedInjectiveInQuadrant(q: Corner, s: Shape, t: Shape)
    ensures Shared(PartRef(q, s)) == Shared(PartRef(q, t)) ==> s == t
  {
  }

  /** The list index of the sprite `Generate` draws in quadrant `q` of the tile for mask
      `index`, written out as the four if-chains of the drawing loop (the orthogonal and
      isometric branches use the same chains). */
  function QuadrantPart(index: Mask, q: Corner, micro: bool): (part: int)
    ensures part == if micro then MicroValue(Shared(PartRef(q, SelectShape(index, q))))
                    else PartValue(PartRef(q, SelectShape(index, q)))
    ensures 0 <= part < (if micro then 13 else 20)
  {
    var top := Has(index, Top);
    var right := Has(index, Right);
    var bottom := Has(index, Bottom);
    var left := Has(index, Left);
    match q
    case TopLeftCorner =>
      if top && left then
        if Has(index, TopLeft) then (if micro then 8 else 14) else (if micro then 3 else 3)
      else if top then (if micro then 7 else 12)
      else if left then (if micro then 5 else 6)
      else (if micro then 4 else 4)
    case TopRightCorner =>
      if top && right then
        if Has(index, TopRight) then (if micro then 8 else 13) else (if micro then 2 else 2)
      else if top then (if micro then 9 else 15)
      else if right then (if micro then 5 else 5)
      else (if micro then 6 else 7)
    case BottomLeftCorner =>
      if bottom && left then
        if Has(index, BottomLeft) then (if micro then 8 else 10) else (if micro then 1 else 1)
      else if bottom then (if micro then 7 else 8)
      else if left then (if micro then 11 else 18)
      else (if micro then 10 else 16)
    case BottomRightCorner =>
      if bottom && right then
        if Has(index, BottomRight) then (if micro then 8 else 9) else (if micro then 0 else 0)
      else if bottom then (if micro then 9 else 11)
      else if right then (if micro then 11 else 17)
      else (if micro then 12 else 19)
  }

  /** A diagonal bit is read only when both of its edge bits are set, so dropping the
      diagonals that `Canonicalize` drops changes no quadrant's shape. */
  lemma SelectShapeIgnoresDroppedDiagonals(m: Mask, q: Corner)
    ensures SelectShape(Canonicalize(m), q) == SelectShape(m, q)
  {
    match q
    case TopLeftCorner =>
    case TopRightCorner =>
    case BottomLeftCorner =>
    case BottomRightCorner =>
  }

  /** Hence the raw mask and its canonical form get the same sprite in every quadrant. */
  lemma QuadrantPartIgnoresDroppedDiagonals(m: Mask, q: Corner, micro: bool)
    ensures QuadrantPart(Canonicalize(m), q, micro) == QuadrantPart(m, q, micro)
  {
    SelectShapeIgnoresDroppedDiagonals(m, q);
  }

  /** The mask a tile shows, read back from the shapes of its four quadrants: an edge bit is
      set when a quadrant beside it shows that edge, a diagonal bit when its quadrant is full. */
  function MaskOfShapes(topLeft: Shape, topRight: Shape, bottomLeft: Shape, bottomRight: Shape): Mask {
    var top: Mask := if topLeft in {Full, CornerInner, EdgeVertical} then Top.Weight() else 0;
    var left: Mask := if topLeft in {Full, CornerInner, EdgeHorizontal} then Left.Weight() else 0;
    var right: Mask := if bottomRight in {Full, CornerInner, EdgeHorizontal} then Right.Weight() else 0;
    var bottom: Mask := if bottomRight in {Full, CornerInner, EdgeVertical} then Bottom.Weight() else 0;
    var tl: Mask := if topLeft == Full then TopLeft.Weight() else 0;
    var tr: Mask := if topRight == Full then TopRight.Weight() else 0;
    var bl: Mask := if bottomLeft == Full then BottomLeft.Weight() else 0;
    var br: Mask := if bottomRight == Full then BottomRight.Weight() else 0;
    top | left | right | bottom | tl | tr | bl | br
  }

  /** Reading a canonical tile's quadrant shapes back gives its mask. */
  lemma MaskOfShapesInverts(m: Mask)
    requires IsCanonical(m)
    ensures MaskOfShapes(SelectShape(m, TopLeftCorner), SelectShape(m, TopRightCorner),
                         SelectShape(m, BottomLeftCorner), SelectShape(m, BottomRightCorner)) == m
  {
  }

  /** Quadrant `q` of the tile for `u` and of the tile for `v` use the same sprite. */
  predicate SameSprite(u: Mask, v: Mask, q: Corner, micro: bool) {
    QuadrantPart(u, q, micro) == QuadrantPart(v, q, micro)
  }

  /** The same sprite in a quadrant means the same shape there, in either vocabulary. */
  lemma SameSpriteSameShape(u: Mask, v: Mask, q: Corner, micro: bool)
    requires SameSprite(u, v, q, micro)
    ensures SelectShape(u, q) == SelectShape(v, q)
  {
    var s, t := SelectShape(u, q), SelectShape(v, q);
    if micro {
      MicroValueBijective(Shared(PartRef(q, s)), 0);
      MicroValueBijective(Shared(PartRef(q, t)), 0);
      SharedInjectiveInQuadrant(q, s, t);
    } else {
      PartValueBijective(PartRef(q, s), 0);
      PartValueBijective(PartRef(q, t), 0);
    }
  }

  /** Distinct canonical masks are drawn from distinct quadruples of sprites, in micro and in
      macro mode: the 47 composed tiles are pairwise distinguishable. */
  lemma DistinctTiles(u: Mask, v: Mask, micro: bool)
    requires IsCanonical(u) && IsCanonical(v)
    requires forall q: Corner :: SameSprite(u, v, q, micro)
    ensures u == v
  {
    SameSpriteSameShape(u, v, TopLeftCorner, micro);
    SameSpriteSameShape(u, v, TopRightCorner, micro);
    SameSpriteSameShape(u, v, BottomLeftCorner, micro);
    SameSpriteSameShape(u, v, BottomRightCorner, micro);
    MaskOfShapesInverts(u);
    MaskOfShapesInverts(v);
  }

  /** Where a sprite goes on the tile canvas: the quadrant's corner in orthogonal mode, the
      points of a diamond in isometric mode. */
  function Offset(q: Corner, size: int, isometric: bool): (xy: (int, int))
    requires size >= 0
    ensures !isometric ==> xy.0 == (if LeftColumn(q) then 0 else size / 2)
    ensures !isometric ==> xy.1 == (if TopRow(q) then 0 else size / 2)
  {
    if isometric then
      var xSize := size;
      var ySize := size / 2;
      match q
      case TopLeftCorner => (xSize / 4, 0)
      case TopRightCorner => (xSize / 2, ySize / 4)
      case BottomLeftCorner => (0, ySize / 4)
      case BottomRightCorner => (xSize / 4, ySize / 2)
    else
      match q
      case TopLeftCorner => (0, 0)
      case TopRightCorner => (size / 2, 0)
      case BottomLeftCorner => (0, size / 2)
      case BottomRightCorner => (size / 2, size / 2)
  }

  /** One sprite drawn onto the tile canvas. */
  datatype Placement = Placement(part: int, x: int, y: int)

  /** The four sprites of the tile for mask `index`, in drawing order. */
  function Compose(index: Mask, micro: bool, size: int, isometric: bool): (ps: seq<Placement>)
    requires size >= 0
    ensures |ps| == 4
    ensures forall k | 0 <= k < 4 ::
      && ps[k].part == QuadrantPart(index, Quadrants[k], micro)
      && (ps[k].x, ps[k].y) == Offset(Quadrants[k], size, isometric)
  {
    seq(4, k requires 0 <= k < 4 =>
      var q := Quadrants[k];
      Placement(QuadrantPart(index, q, micro), Offset(q, size, isometric).0, Offset(q, size, isometric).1))
  }

  /** Every sprite lies inside the tile canvas. The sprites are `size / 2` wide and
      `TileHeight(size, isometric) / 2` high (the cropped parts of half the tile size). */
  lemma SpritesInsideTile(size: int, isometric: bool, q: Corner)
    requires size >= 0
    ensures var xy := Offset(q, size, isometric);
      && 0 <= xy.0 && xy.0 + size / 2 <= size
      && 0 <= xy.1 && xy.1 + TileHeight(size, isometric) / 2 <= TileHeight(size, isometric)
  {
  }

  /** In orthogonal mode the four sprites tile the canvas without overlapping: distinct
      quadrants have disjoint rectangles. */
  lemma OrthogonalSpritesDisjoint(size: int, q: Corner, r: Corner)
    requires size >= 0 && q != r
    ensures var a, b := Offset(q, size, false), Offset(r, size, false);
      || a.0 + size / 2 <= b.0 || b.0 + size / 2 <= a.0
      || a.1 + size / 2 <= b.1 || b.1 + size / 2 <= a.1
  {
  }
}
