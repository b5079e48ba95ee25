/** `Generator.Generate` (Blobator/Generator.cs) without pixels: which quadrant sprites it
    obtains, where each of the 47 tiles goes in the atlas, which sprites make up each tile,
    and the manifest it writes beside the image. */
module Generator {
  import opened Results
  import opened Geometry
  import opened Masks
  import opened Parts
  import opened Atlas
  import opened SourceParts

  /** One manifest entry (`BlobTile`): where the tile is in the atlas, and every raw mask
      that uses it, its canonical mask first. */
  datatype TileRecord = TileRecord(source: Rect, indices: seq<int>)

  /** The manifest (`Blob`): the image file, the eight direction bits, the tiles. */
  datatype Manifest = Manifest(image: string, bits: seq<int>, tiles: seq<TileRecord>)

  /** A quadrant sprite: one of the thirteen drawn placeholders of the given side, or a
      crop of the source image. */
  datatype Sprite = Drawn(part: MicroPart, side: int) | Cropped(region: Rect)

  /** The `-source` argument as the file system sees it. */
  datatype SourceFile = Missing(path: string) | Present(path: string, width: int, height: int)

  /** Why `Generate` stops. */
  datatype GenerateError =
    | BitmapFailed(width: int, height: int)
    | IsometricNeedsSource
    | SourceNotFound(path: string)
    | SlicingFailed(reason: PartsError)

  /** What `Generate` produces: the atlas size, the sprites, the four placements of each
      tile in atlas order, and the manifest. */
  datatype Output = Output(width: int, height: int, parts: seq<Sprite>, tiles: seq<seq<Placement>>, manifest: Manifest)

  /** `GetParts(size)`: the thirteen placeholder sprites, in `PartMicro` order. */
  function DrawnParts(side: int): (ps: seq<Sprite>)
    ensures |ps| == 13
    ensures forall k | 0 <= k < 13 :: ps[k].Drawn? && MicroValue(ps[k].part) == k && ps[k].side == side
  {
    seq(13, k requires 0 <= k < 13 => MicroValueBijective(MicroAt(k).value, k); Drawn(MicroAt(k).value, side))
  }

  /** The sprites `Generate` works from, for tiles of side `2 * half` (or `2 * half + 1`):
      without a source image it draws placeholders, which isometric mode does not support;
      with one it slices the image. */
  function GetParts(half: int, isometric: bool, source: Option<SourceFile>): (r: Result<seq<Sprite>, GenerateError>)
    ensures r.Ok? ==> |r.value| == 13 || |r.value| == 20
    ensures source.None? ==> (r.Ok? <==> !isometric && half > 0)
    ensures source.Some? && source.value.Present? ==>
      (r.Ok? <==> SliceSource(half, isometric, source.value.width, source.value.height).Ok?)
  {
    match source
    case None =>
      if isometric then Err(IsometricNeedsSource)
      else if half <= 0 then Err(BitmapFailed(half, half))
      else Ok(DrawnParts(half))
    case Some(Missing(path)) => Err(SourceNotFound(path))
    case Some(Present(_, width, height)) =>
      match SliceSource(half, isometric, width, height)
      case Err(e) => Err(SlicingFailed(e))
      case Ok(rects) =>
        SliceSourceMicroIffSmall(half, isometric, width, height);
        Ok(CroppedParts(rects))
  }

  /** The sprites cut from the source image, one per crop rectangle. */
  function CroppedParts(rects: seq<Rect>): (ps: seq<Sprite>)
    ensures |ps| == |rects|
    ensures forall k | 0 <= k < |rects| :: ps[k].Cropped? && ps[k].region == rects[k]
  {
    seq(|rects|, k requires 0 <= k < |rects| => Cropped(rects[k]))
  }

  /** The masks as manifest integers, order kept. */
  function Ints(s: seq<Mask>): (r: seq<int>)
    ensures |r| == |s|
    ensures forall i | 0 <= i < |s| :: r[i] == s[i] as int && 0 <= r[i] < 256
  {
    seq(|s|, i requires 0 <= i < |s| => s[i] as int)
  }

  /** A mask is listed exactly when its integer is. */
  lemma IntsMembers(s: seq<Mask>, m: Mask)
    ensures m as int in Ints(s) <==> m in s
  {
    var ix := Ints(s);
    if m as int in ix {
      var i :| 0 <= i < |ix| && ix[i] == m as int;
      assert s[i] == m;
    }
    if m in s {
      var i :| 0 <= i < |s| && s[i] == m;
      assert ix[i] == m as int;
    }
  }

  /** The manifest indices of the tile for canonical mask `u`: `u`, then every raw mask
      collapsing onto it, in ascending order. */
  function Indices(u: Mask): (ix: seq<int>)
    requires IsCanonical(u)
    ensures |ix| > 0 && ix[0] == u as int
    ensures forall i | 0 <= i < |ix| :: 0 <= ix[i] < 256
    ensures forall m: Mask :: m as int in ix <==> Canonicalize(m) == u
  {
    var c := EquivalenceClass(u);
    forall m: Mask ensures m as int in Ints(c) <==> m in c {
      IntsMembers(c, m);
    }
    Ints(c)
  }

  /** The manifest records: record `k` is for canonical mask number `k`, at the pen
      position `PenRect(k)`. */
  function Records(size: int, powerOfTwo: bool, isometric: bool): (rs: seq<TileRecord>)
    requires size > 0
    ensures |rs| == TileCount
    ensures forall k | 0 <= k < TileCount ::
      rs[k] == TileRecord(PenRect(k, size, powerOfTwo, isometric), Indices(CanonicalMasks()[k]))
  {
    var uniques := CanonicalMasks();
    seq(TileCount, k requires 0 <= k < TileCount =>
      TileRecord(PenRect(k, size, powerOfTwo, isometric), Indices(uniques[k])))
  }

  /** The four sprite placements of every tile, in atlas order. */
  function TileSprites(micro: bool, size: int, isometric: bool): (ts: seq<seq<Placement>>)
    requires size > 0
    ensures |ts| == TileCount
    ensures forall k | 0 <= k < TileCount :: ts[k] == Compose(CanonicalMasks()[k], micro, size, isometric)
  {
    var uniques := CanonicalMasks();
    seq(TileCount, k requires 0 <= k < TileCount => Compose(uniques[k], micro, size, isometric))
  }

  /** The atlas once the sprites are known: the atlas size, the tiles and the manifest. */
  function Layout(size: int, path: string, powerOfTwo: bool, isometric: bool, parts: seq<Sprite>): (out: Output)
    requires size > 0
    ensures (out.width, out.height) == AtlasSizeAsWritten(size, powerOfTwo, isometric)
    ensures out.parts == parts
    ensures out.tiles == TileSprites(|parts| < 20, size, isometric)
    ensures out.manifest == Manifest(path + ".png", DefaultBits, Records(size, powerOfTwo, isometric))
  {
    var wh := AtlasSizeAsWritten(size, powerOfTwo, isometric);
    Output(wh.0, wh.1, parts, TileSprites(|parts| < 20, size, isometric),
      Manifest(path + ".png", DefaultBits, Records(size, powerOfTwo, isometric)))
  }

  /** `Generate(size, path, powerOfTwo, …, source, …, isometric)`. Drawing the placeholder
      sprites of side `size` comes first and fails for a non-positive size; then the sprites
      of side `size / 2` are drawn or sliced, and the tiles laid out. */
  function Generate(size: int, path: string, powerOfTwo: bool, isometric: bool, source: Option<SourceFile>): (r: Result<Output, GenerateError>)
    ensures size <= 0 ==> r == Err(BitmapFailed(size, size))
    ensures r.Ok? ==> size >= 2 && |r.value.manifest.tiles| == TileCount
    ensures r.Ok? ==> (r.value.width, r.value.height) == AtlasSizeAsWritten(size, powerOfTwo, isometric)
    ensures r.Ok? ==> r.value.manifest.image == path + ".png" && r.value.manifest.bits == DefaultBits
  {
    if size <= 0 then Err(BitmapFailed(size, size))
    else
      var parts :- GetParts(size / 2, isometric, source);
      Ok(Layout(size, path, powerOfTwo, isometric, parts))
  }

  /** The inputs a run accepts: a size of at least two and either no source in orthogonal
      mode, or an existing source image that holds the micro layout of `size / 2` sprites
      whose height is positive. */
  predicate Runs(size: int, isometric: bool, source: Option<SourceFile>) {
    size >= 2 && match source
      case None => !isometric
      case Some(Missing(_)) => false
      case Some(Present(_, width, height)) =>
        var minimum := MinimumSize(size / 2, isometric);
        width >= minimum.0 && height >= minimum.1 && TileHeight(size / 2, isometric) > 0
  }

  /** The run succeeds exactly for the inputs it accepts; the errors come in the order the
      source raises them. */
  lemma GenerateSucceedsIff(size: int, path: string, powerOfTwo: bool, isometric: bool, source: Option<SourceFile>)
    ensures var r := Generate(size, path, powerOfTwo, isometric, source);
      && (r.Ok? <==> Runs(size, isometric, source))
      && (size > 0 && source.None? && isometric ==> r == Err(IsometricNeedsSource))
      && (size > 0 && source.Some? && source.value.Missing? ==> r == Err(SourceNotFound(source.value.path)))
  {
  }

  /** The micro layout is used exactly when fewer than twenty sprites are available: always
      without a source, and for a source image below the macro size otherwise. */
  lemma MicroIffSmallSource(size: int, path: string, powerOfTwo: bool, isometric: bool, source: Option<SourceFile>)
    requires Runs(size, isometric, source)
    ensures Generate(size, path, powerOfTwo, isometric, source).Ok?
    ensures var out := Generate(size, path, powerOfTwo, isometric, source).value;
      |out.parts| < 20 <==> match source
        case None => true
        case Some(Missing(_)) => false
        case Some(Present(_, width, height)) =>
          var macro := MacroSize(size / 2, isometric);
          width < macro.0 || height < macro.1
  {
    GenerateSucceedsIff(size, path, powerOfTwo, isometric, source);
    if source.Some? && source.value.Present? {
      SliceSourceMicroIffSmall(size / 2, isometric, source.value.width, source.value.height);
    }
  }

  /** Tile `k` of the atlas is canonical mask number `k`: its record starts with that mask
      and its sprites are chosen for it. */
  lemma TileIsCanonicalMask(size: int, path: string, powerOfTwo: bool, isometric: bool, source: Option<SourceFile>, k: int)
    requires Runs(size, isometric, source) && 0 <= k < TileCount
    ensures Generate(size, path, powerOfTwo, isometric, source).Ok?
    ensures var out := Generate(size, path, powerOfTwo, isometric, source).value;
      var u := CanonicalMasks()[k];
      && IsCanonical(u) && CanonicalRank(u) == k
      && out.manifest.tiles[k].indices[0] == u as int
      && out.tiles[k] == Compose(u, |out.parts| < 20, size, isometric)
  {
    GenerateSucceedsIff(size, path, powerOfTwo, isometric, source);
    var u := CanonicalMasks()[k];
    assert u in CanonicalMasks();
    CanonicalIndexIsRank(k);
  }

  /** Position `k` of the ascending canonical list holds the mask of rank `k`. */
  lemma CanonicalIndexIsRank(k: int)
    requires 0 <= k < TileCount
    ensures IsCanonical(CanonicalMasks()[k]) && CanonicalRank(CanonicalMasks()[k]) == k
  {
    var s := CanonicalMasks();
    var u := s[k];
    assert u in s;
    var j := CanonicalRank(u);
    assert s[j] == u;
  }

  /** Every raw mask appears in exactly one record: the one of its canonical form's rank. */
  lemma EveryMaskInOneRecord(size: int, path: string, powerOfTwo: bool, isometric: bool, source: Option<SourceFile>, m: Mask, k: int)
    requires Runs(size, isometric, source) && 0 <= k < TileCount
    ensures Generate(size, path, powerOfTwo, isometric, source).Ok?
    ensures var out := Generate(size, path, powerOfTwo, isometric, source).value;
      m as int in out.manifest.tiles[k].indices <==> k == CanonicalRank(Canonicalize(m))
  {
    GenerateSucceedsIff(size, path, powerOfTwo, isometric, source);
    var u := CanonicalMasks()[k];
    CanonicalIndexIsRank(k);
    var c := Canonicalize(m);
    if c == u {
    } else {
      assert CanonicalMasks()[CanonicalRank(c)] == c;
    }
  }

  /** Every index in the manifest is a raw mask. */
  lemma IndicesAreMasks(size: int, path: string, powerOfTwo: bool, isometric: bool, source: Option<SourceFile>, k: int)
    requires Runs(size, isometric, source) && 0 <= k < TileCount
    ensures Generate(size, path, powerOfTwo, isometric, source).Ok?
    ensures var ix := Generate(size, path, powerOfTwo, isometric, source).value.manifest.tiles[k].indices;
      forall i | 0 <= i < |ix| :: 0 <= ix[i] < 256
  {
    GenerateSucceedsIff(size, path, powerOfTwo, isometric, source);
    assert CanonicalMasks()[k] in CanonicalMasks();
  }

  /** After the canonical mask, the indices list the masks collapsing onto it. */
  lemma IndicesTail(u: Mask)
    requires IsCanonical(u)
    ensures Indices(u)[1..] == Ints(DuplicatesOf(u))
  {
    assert EquivalenceClass(u) == [u] + DuplicatesOf(u);
  }

  /** A mask collapses onto canonical `u` exactly when it is a different mask with canonical
      form `u`, that is, a non-canonical one. */
  lemma CollapsesOntoMember(u: Mask, m: Mask)
    requires IsCanonical(u)
    ensures m in DuplicatesOf(u) <==> !IsCanonical(m) && Canonicalize(m) == u
  {
    CollectMembers(256, CollapsingOnto(u), m);
    assert m as Counter < 256;
    assert Canonicalize(u) == u;
  }

  /** The indices after the first are exactly the keys `GetSets` put in `duplicates` with
      the tile's canonical mask as value (every key is a mask, by `GetSets`). */
  lemma RecordMatchesGetSets(duplicates: map<int, Mask>, u: Mask, m: Mask)
    requires IsCanonical(u)
    requires forall m: Mask :: m as int in duplicates <==> !IsCanonical(m)
    requires forall m: Mask | m as int in duplicates :: duplicates[m as int] == Canonicalize(m)
    ensures m as int in Indices(u)[1..] <==> m as int in duplicates && duplicates[m as int] == u
  {
    IndicesTail(u);
    IntsMembers(DuplicatesOf(u), m);
    CollapsesOntoMember(u, m);
  }

  /** Tile `k` is drawn where the pen is after `k` tiles: it moves right one tile at a time
      and returns to the left edge one tile height down once it reaches the atlas width. */
  lemma TilesFollowPen(size: int, path: string, powerOfTwo: bool, isometric: bool, source: Option<SourceFile>, k: int)
    requires Runs(size, isometric, source) && 0 <= k < TileCount
    ensures Generate(size, path, powerOfTwo, isometric, source).Ok?
    ensures var out := Generate(size, path, powerOfTwo, isometric, source).value;
      var h := TileHeight(size, isometric);
      var xy := Cursor(k, size, h, out.width, false);
      out.manifest.tiles[k].source == Rect(xy.0, xy.1, size, h)
  {
    GenerateSucceedsIff(size, path, powerOfTwo, isometric, source);
    PenRectIsCursor(k, size, powerOfTwo, isometric);
  }

  /** Every tile starts left of the atlas's right edge; in the plain layout every tile lies
      wholly inside the atlas. */
  lemma TilesInside(size: int, path: string, powerOfTwo: bool, isometric: bool, source: Option<SourceFile>, k: int)
    requires Runs(size, isometric, source) && 0 <= k < TileCount
    ensures Generate(size, path, powerOfTwo, isometric, source).Ok?
    ensures var out := Generate(size, path, powerOfTwo, isometric, source).value;
      var r := out.manifest.tiles[k].source;
      && 0 <= r.x < out.width && 0 <= r.y
      && (!powerOfTwo ==> Inside(r, out.width, out.height))
  {
    GenerateSucceedsIff(size, path, powerOfTwo, isometric, source);
    PenRectStarts(k, size, powerOfTwo, isometric);
    if !powerOfTwo {
      PlainLayoutAsWritten(k, size, isometric);
      TilesInsideAtlas(k, size, false, isometric);
    }
  }

  /** Two different tiles never overlap. */
  lemma TilesDisjoint(size: int, path: string, powerOfTwo: bool, isometric: bool, source: Option<SourceFile>, j: int, k: int)
    requires Runs(size, isometric, source)
    requires 0 <= j < TileCount && 0 <= k < TileCount && j != k
    ensures Generate(size, path, powerOfTwo, isometric, source).Ok?
    ensures var out := Generate(size, path, powerOfTwo, isometric, source).value;
      var a, b := out.manifest.tiles[j].source, out.manifest.tiles[k].source;
      || a.x + a.width <= b.x || b.x + b.width <= a.x
      || a.y + a.height <= b.y || b.y + b.height <= a.y
  {
    GenerateSucceedsIff(size, path, powerOfTwo, isometric, source);
    PenRectsDisjoint(j, k, size, powerOfTwo, isometric);
  }

  /** Every sprite a tile draws exists in the sprite list: the part numbers of the micro
      layout stay below 13 and those of the macro layout below 20. */
  lemma SpritesExist(size: int, path: string, powerOfTwo: bool, isometric: bool, source: Option<SourceFile>, k: int, q: int)
    requires Runs(size, isometric, source) && 0 <= k < TileCount && 0 <= q < 4
    ensures Generate(size, path, powerOfTwo, isometric, source).Ok?
    ensures var out := Generate(size, path, powerOfTwo, isometric, source).value;
      0 <= out.tiles[k][q].part < |out.parts|
  {
    GenerateSucceedsIff(size, path, powerOfTwo, isometric, source);
  }

  /** No other mask collapses onto the full mask: canonicalising never adds bits. */
  lemma NothingCollapsesOntoFull(u: Mask)
    requires u == 255
    ensures DuplicatesOf(u) == []
  {
    if |DuplicatesOf(u)| > 0 {
      var r := DuplicatesOf(u)[0];
      CollapsesOntoMember(u, r);
      assert false;
    }
  }

  /** The full mask 255 is its own class. */
  lemma FullMaskAlone(u: Mask)
    requires u == 255
    ensures IsCanonical(u) && Indices(u) == [255]
  {
    NothingCollapsesOntoFull(u);
    assert EquivalenceClass(u) == [u];
  }

  /** The default run of the test program (size 32, no options): a 224 by 224 atlas of
      placeholder sprites whose tile for the full mask 255 sits at (128, 192). */
  lemma DefaultRun()
    ensures var r := Generate(32, "blobtest", false, false, None);
      && r.Ok?
      && (r.value.width, r.value.height) == (224, 224)
      && |r.value.parts| == 13
      && r.value.manifest.tiles[46].source == Rect(128, 192, 32, 32)
      && r.value.manifest.tiles[46].indices == [255]
  {
    var r := Generate(32, "blobtest", false, false, None);
    assert r == Ok(Layout(32, "blobtest", false, false, DrawnParts(16)));
    assert AtlasSizeAsWritten(32, false, false) == (224, 224);
    assert CanonicalRank(255) == 46;
    FullMaskAlone(255);
    assert CanonicalMasks()[46] == 255;
    assert PenColumns(224, 32) == 7;
    assert PenRect(46, 32, false, false) == Rect((46 % 7) * 32, (46 / 7) * 32, 32, 32);
  }

  /** A power-of-two run the source lays out past its atlas: at size 37 the atlas is 512 by
      128, and the tile of the fourteenth canonical mask is drawn at x = 481, reaching 518. */
  lemma PowerOfTwoRunOverflows()
    ensures var r := Generate(37, "blob", true, false, None);
      && r.Ok?
      && (r.value.width, r.value.height) == (512, 128)
      && r.value.manifest.tiles[13].source == Rect(481, 0, 37, 37)
      && !Inside(r.value.manifest.tiles[13].source, r.value.width, r.value.height)
  {
    var r := Generate(37, "blob", true, false, None);
    assert r == Ok(Layout(37, "blob", true, false, DrawnParts(18)));
    PowerOfTwoOverflow();
  }
}
