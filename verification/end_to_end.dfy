/** A generated atlas read back: the manifest `Generate` writes, loaded by the tileset in
    either format, looks every raw mask up to the tile of its canonical mask. This is the
    contract between Blobator/Generator.cs and Blobator/BlobTileset.cs that the test
    program exercises. */
module EndToEnd {
  import opened Results
  import opened Numbers
  import opened Geometry
  import opened Masks
  import opened Atlas
  import opened JsonValues
  import opened Tilesets
  import opened XmlReader
  import opened Generator
  import opened ManifestFormats

  /** The atlas of a run has `int` dimensions, as the bitmap it is drawn on must. */
  predicate AtlasFits(size: int, powerOfTwo: bool, isometric: bool)
    requires size > 0
  {
    var wh := AtlasSizeAsWritten(size, powerOfTwo, isometric);
    wh.0 < TwoTo31 && wh.1 < TwoTo31
  }

  /** A record of a layout whose atlas fits an `int` has `int` fields: its rectangle starts
      within the atlas width and its indices are masks. */
  lemma RecordWritableAt(size: int, powerOfTwo: bool, isometric: bool, k: nat)
    requires size > 0 && k < TileCount
    requires AtlasFits(size, powerOfTwo, isometric)
    ensures RecordWritable(Records(size, powerOfTwo, isometric)[k])
  {
    var u := CanonicalMasks()[k];
    CanonicalIndexIsRank(k);
    PenRectWritable(size, powerOfTwo, isometric, k);
    IndicesWritable(u);
  }

  /** The rectangle of a tile of an atlas that fits an `int` has `int` fields: no
      coordinate or side exceeds the atlas width. */
  lemma PenRectWritable(size: int, powerOfTwo: bool, isometric: bool, k: nat)
    requires size > 0 && k < TileCount
    requires AtlasFits(size, powerOfTwo, isometric)
    ensures var r := PenRect(k, size, powerOfTwo, isometric);
      IsInt32(r.x) && IsInt32(r.y) && IsInt32(r.width) && IsInt32(r.height)
  {
    PenRectStarts(k, size, powerOfTwo, isometric);
    assert 0 <= TileHeight(size, isometric) <= size;
  }

  /** The indices of a tile are masks, so `int`s. */
  lemma IndicesWritable(u: Mask)
    requires IsCanonical(u)
    ensures forall j | 0 <= j < |Indices(u)| :: IsInt32(Indices(u)[j])
  {
  }

  /** A successful run whose atlas fits an `int` writes a manifest both serializers can
      represent. */
  lemma ManifestWritable(size: int, path: string, powerOfTwo: bool, isometric: bool, source: Option<SourceFile>)
    requires Runs(size, isometric, source) && AtlasFits(size, powerOfTwo, isometric)
    ensures Generate(size, path, powerOfTwo, isometric, source).Ok?
    ensures Writable(Generate(size, path, powerOfTwo, isometric, source).value.manifest)
  {
    GenerateSucceedsIff(size, path, powerOfTwo, isometric, source);
    var out := Generate(size, path, powerOfTwo, isometric, source).value;
    assert out == Layout(size, path, powerOfTwo, isometric, out.parts);
    LayoutWritable(size, path, powerOfTwo, isometric);
  }

  /** The manifest of a layout whose atlas fits an `int` is writable. */
  lemma LayoutWritable(size: int, path: string, powerOfTwo: bool, isometric: bool)
    requires size > 0
    requires AtlasFits(size, powerOfTwo, isometric)
    ensures Writable(Manifest(path + ".png", DefaultBits, Records(size, powerOfTwo, isometric)))
  {
    var records := Records(size, powerOfTwo, isometric);
    DefaultBitsWritable();
    forall k | 0 <= k < |records|
      ensures RecordWritable(records[k])
    {
      RecordWritableAt(size, powerOfTwo, isometric, k);
    }
  }

  /** The default bits are `int`s. */
  lemma DefaultBitsWritable()
    ensures |DefaultBits| == 8 && forall k | 0 <= k < 8 :: IsInt32(DefaultBits[k])
  {
  }

  /** When exactly one record lists `i`, that record writes it last. */
  lemma OnlyWriter(entries: seq<TileEntry>, i: int, k: nat)
    requires k < |entries|
    requires forall j | 0 <= j < |entries| :: i in entries[j].indices <==> j == k
    ensures LastWriter(entries, i) == Some(k)
  {
    assert i in entries[k].indices;
  }

  /** The region the loader cuts for the tile at position `k` of the layout. */
  function TileRegion<TImage, TRegion>(image: TImage, loadRegion: (TImage, int, int, int, int) -> TRegion,
                                        k: nat, size: int, powerOfTwo: bool, isometric: bool): TRegion
    requires size > 0
  {
    var r := PenRect(k, size, powerOfTwo, isometric);
    loadRegion(image, r.x, r.y, r.width, r.height)
  }

  /** Loading what a run wrote, as JSON: the image is the written `.png`, the bits are the
      default ones, and every mask resolves to the region of its canonical mask's tile,
      the tile at that mask's rank in the layout. */
  lemma GeneratedTileLoads<TImage, TRegion>(size: int, path: string, powerOfTwo: bool, isometric: bool,
                                            source: Option<SourceFile>, loadImage: string -> TImage,
                                            loadRegion: (TImage, int, int, int, int) -> TRegion, m: Mask)
    requires Runs(size, isometric, source) && AtlasFits(size, powerOfTwo, isometric)
    ensures Generate(size, path, powerOfTwo, isometric, source).Ok?
    ensures var manifest := Generate(size, path, powerOfTwo, isometric, source).value.manifest;
      && Writable(manifest)
      && var t := Load(ManifestToJson(manifest), loadImage, loadRegion);
      && t.Ok? && t.value.image == Some(loadImage(path + ".png")) && t.value.bits == DefaultBits
      && GetTile(t.value, m as int)
         == Some(TileRegion(loadImage(path + ".png"), loadRegion, CanonicalRank(Canonicalize(m)), size, powerOfTwo, isometric))
  {
    GenerateSucceedsIff(size, path, powerOfTwo, isometric, source);
    var out := Generate(size, path, powerOfTwo, isometric, source).value;
    var manifest := out.manifest;
    ManifestWritable(size, path, powerOfTwo, isometric, source);
    assert manifest == Manifest(path + ".png", DefaultBits, Records(size, powerOfTwo, isometric));
    JsonRoundTrip(manifest, loadImage, loadRegion);
    var image := loadImage(path + ".png");
    var entries := Entries(manifest);
    var k := CanonicalRank(Canonicalize(m));
    forall j | 0 <= j < |entries|
      ensures m as int in entries[j].indices <==> j == k
    {
      EveryMaskInOneRecord(size, path, powerOfTwo, isometric, source, m, j);
    }
    OnlyWriter(entries, m as int, k);
    PlaceLastWins(map[], entries, image, loadRegion, m as int);
  }

  /** Every index a manifest lists is a mask, so nothing outside 0..255 is ever loaded; and
      the lookup rejects such an index anyway. */
  lemma OutOfRangeMisses<TImage, TRegion>(size: int, path: string, powerOfTwo: bool, isometric: bool,
                                          source: Option<SourceFile>, loadImage: string -> TImage,
                                          loadRegion: (TImage, int, int, int, int) -> TRegion, i: int)
    requires Runs(size, isometric, source) && AtlasFits(size, powerOfTwo, isometric)
    requires i < 0 || i > 255
    ensures Generate(size, path, powerOfTwo, isometric, source).Ok?
    ensures var manifest := Generate(size, path, powerOfTwo, isometric, source).value.manifest;
      && Writable(manifest)
      && var t := Load(ManifestToJson(manifest), loadImage, loadRegion);
      && t.Ok? && i !in t.value.tiles && GetTile(t.value, i).None?
  {
    GenerateSucceedsIff(size, path, powerOfTwo, isometric, source);
    var out := Generate(size, path, powerOfTwo, isometric, source).value;
    var manifest := out.manifest;
    ManifestWritable(size, path, powerOfTwo, isometric, source);
    JsonRoundTrip(manifest, loadImage, loadRegion);
    var entries := Entries(manifest);
    forall j | 0 <= j < |entries|
      ensures i !in entries[j].indices
    {
      IndicesAreMasks(size, path, powerOfTwo, isometric, source, j);
    }
    PlaceLastWins(map[], entries, loadImage(path + ".png"), loadRegion, i);
  }

  /** The same through the eight neighbour flags: with the default bits the written
      manifest carries, the flags of a mask find its canonical mask's tile. */
  lemma GeneratedFlagsLoad<TImage, TRegion>(size: int, path: string, powerOfTwo: bool, isometric: bool,
                                            source: Option<SourceFile>, loadImage: string -> TImage,
                                            loadRegion: (TImage, int, int, int, int) -> TRegion, m: Mask)
    requires Runs(size, isometric, source) && AtlasFits(size, powerOfTwo, isometric)
    ensures Generate(size, path, powerOfTwo, isometric, source).Ok?
    ensures var manifest := Generate(size, path, powerOfTwo, isometric, source).value.manifest;
      && Writable(manifest)
      && var t := Load(ManifestToJson(manifest), loadImage, loadRegion);
      && t.Ok?
      && GetTileByFlags(t.value, Has(m, TopLeft), Has(m, Top), Has(m, TopRight), Has(m, Right),
                        Has(m, BottomRight), Has(m, Bottom), Has(m, BottomLeft), Has(m, Left))
         == Ok(Some(TileRegion(loadImage(path + ".png"), loadRegion, CanonicalRank(Canonicalize(m)), size, powerOfTwo, isometric)))
  {
    GenerateSucceedsIff(size, path, powerOfTwo, isometric, source);
    GeneratedTileLoads(size, path, powerOfTwo, isometric, source, loadImage, loadRegion, m);
    var manifest := Generate(size, path, powerOfTwo, isometric, source).value.manifest;
    GetTileByFlagsIsMaskLookup(Load(ManifestToJson(manifest), loadImage, loadRegion).value, m);
  }

  /** Loading what a run wrote as XML gives the same lookups as loading it as JSON. */
  lemma GeneratedXmlLoads<TImage, TRegion>(size: int, path: string, powerOfTwo: bool, isometric: bool,
                                           source: Option<SourceFile>, loadImage: string -> TImage,
                                           loadRegion: (TImage, int, int, int, int) -> TRegion, m: Mask)
    requires Runs(size, isometric, source) && AtlasFits(size, powerOfTwo, isometric)
    ensures Generate(size, path, powerOfTwo, isometric, source).Ok?
    ensures var manifest := Generate(size, path, powerOfTwo, isometric, source).value.manifest;
      && |manifest.bits| == 8
      && var json := FromXml(ManifestToXml(manifest));
      && json.Ok?
      && var t := Load(json.value, loadImage, loadRegion);
      && t.Ok?
      && GetTile(t.value, m as int)
         == Some(TileRegion(loadImage(path + ".png"), loadRegion, CanonicalRank(Canonicalize(m)), size, powerOfTwo, isometric))
  {
    GenerateSucceedsIff(size, path, powerOfTwo, isometric, source);
    GeneratedTileLoads(size, path, powerOfTwo, isometric, source, loadImage, loadRegion, m);
    XmlRoundTrip(Generate(size, path, powerOfTwo, isometric, source).value.manifest);
  }

  /** Where the masks the test program looks up sit in the default 224 by 224 layout. */
  lemma TestMasks()
    ensures CanonicalRank(Canonicalize(17)) == 0 && PenRect(0, 32, false, false) == Rect(0, 0, 32, 32)
    ensures CanonicalRank(Canonicalize(19)) == 1 && PenRect(1, 32, false, false) == Rect(32, 0, 32, 32)
    ensures CanonicalRank(Canonicalize(255)) == 46 && PenRect(46, 32, false, false) == Rect(128, 192, 32, 32)
    ensures CanonicalRank(Canonicalize(85)) == 0
    ensures Has(85, TopLeft) && !Has(85, Top) && Has(85, TopRight) && !Has(85, Right)
    ensures Has(85, BottomRight) && !Has(85, Bottom) && Has(85, BottomLeft) && !Has(85, Left)
  {
    assert Canonicalize(85) == 0;
    assert Canonicalize(17) == 0 && CanonicalRank(0) == 0;
    assert Canonicalize(19) == 2 && CanonicalRank(2) == 1;
    assert Canonicalize(255) == 255 && CanonicalRank(255) == 46;
    assert AtlasSizeAsWritten(32, false, false) == (224, 224);
    assert PenColumns(224, 32) == 7;
  }

  /** The tileset the test program loads after its default run (size 32, `blobtest`). */
  function DefaultTileset<TImage, TRegion>(loadImage: string -> TImage, loadRegion: (TImage, int, int, int, int) -> TRegion)
    : Result<Tileset<TImage, TRegion>, TilesetError>
  {
    DefaultRun();
    ManifestWritable(32, "blobtest", false, false, None);
    Load(ManifestToJson(Generate(32, "blobtest", false, false, None).value.manifest), loadImage, loadRegion)
  }

  /** In the default tileset, a mask finds the region of its canonical mask's tile. */
  lemma DefaultLookup<TImage, TRegion>(loadImage: string -> TImage, loadRegion: (TImage, int, int, int, int) -> TRegion, m: Mask)
    ensures var t := DefaultTileset(loadImage, loadRegion);
      && t.Ok?
      && GetTile(t.value, m as int) == Some(TileRegion(loadImage("blobtest" + ".png"), loadRegion, CanonicalRank(Canonicalize(m)), 32, false, false))
      && GetTileByFlags(t.value, Has(m, TopLeft), Has(m, Top), Has(m, TopRight), Has(m, Right),
                        Has(m, BottomRight), Has(m, Bottom), Has(m, BottomLeft), Has(m, Left))
         == Ok(GetTile(t.value, m as int))
  {
    DefaultRun();
    GeneratedTileLoads(32, "blobtest", false, false, None, loadImage, loadRegion, m);
    GetTileByFlagsIsMaskLookup(DefaultTileset(loadImage, loadRegion).value, m);
  }

  /** Lookups by index the test program makes after loading: masks 17, 19 and the full
      mask 255. */
  lemma TestProgramIndexLookups<TImage, TRegion>(loadImage: string -> TImage, loadRegion: (TImage, int, int, int, int) -> TRegion)
    ensures var t := DefaultTileset(loadImage, loadRegion);
      var image := loadImage("blobtest" + ".png");
      && t.Ok?
      && GetTile(t.value, 17) == Some(loadRegion(image, 0, 0, 32, 32))
      && GetTile(t.value, 19) == Some(loadRegion(image, 32, 0, 32, 32))
      && GetTile(t.value, 255) == Some(loadRegion(image, 128, 192, 32, 32))
  {
    TestMasks();
    DefaultLookup(loadImage, loadRegion, 17);
    DefaultLookup(loadImage, loadRegion, 19);
    DefaultLookup(loadImage, loadRegion, 255);
  }

  /** Lookups by flags the test program makes after loading: the four diagonal flags alone
      (raw mask 85), and all eight flags set. */
  lemma TestProgramFlagLookups<TImage, TRegion>(loadImage: string -> TImage, loadRegion: (TImage, int, int, int, int) -> TRegion)
    ensures var t := DefaultTileset(loadImage, loadRegion);
      var image := loadImage("blobtest" + ".png");
      && t.Ok?
      && GetTileByFlags(t.value, true, false, true, false, true, false, true, false) == Ok(Some(loadRegion(image, 0, 0, 32, 32)))
      && GetTileByFlags(t.value, true, true, true, true, true, true, true, true) == Ok(Some(loadRegion(image, 128, 192, 32, 32)))
  {
    var t := DefaultTileset(loadImage, loadRegion);
    var image := loadImage("blobtest" + ".png");
    TestMasks();
    assert Has(255, TopLeft) && Has(255, Top) && Has(255, TopRight) && Has(255, Right);
    assert Has(255, BottomRight) && Has(255, Bottom) && Has(255, BottomLeft) && Has(255, Left);
    assert TileRegion(image, loadRegion, 0, 32, false, false) == loadRegion(image, 0, 0, 32, 32);
    assert TileRegion(image, loadRegion, 46, 32, false, false) == loadRegion(image, 128, 192, 32, 32);
    DefaultLookup(loadImage, loadRegion, 85);
    DefaultLookup(loadImage, loadRegion, 255);
  }
}
