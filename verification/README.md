# Blobator in Dafny

Blobator builds "blob" autotile atlases and reads them back. A tile's eight neighbour flags
(four cardinal, four diagonal) form an 8-bit mask, so there are 256 raw masks. A diagonal
flag only matters when both cardinal flags next to it are set. Dropping the diagonals that do
not matter leaves 47 canonical masks, and the generator draws one tile per canonical mask.
Each tile is made of four quadrant sprites picked from a 13-sprite ("micro") or 20-sprite
("macro") part set. The 47 tiles are packed into one atlas, and a manifest (JSON or XML) lists,
for every tile, its rectangle and every raw mask that shows it. The generic
`BlobTileset<TImage, TRegion>` loads such a manifest and answers "which region shows this
mask", either from a raw index or from the eight flags.

The model is split into these modules:

- `Masks` (masks.dfy): masks, the eight directions and their weights, canonicalisation,
  `GetSets`, and the ascending list of the 47 canonical masks.
- `Parts` (parts.dfy): the `Part` and `PartMicro` numbering and the per-quadrant decision
  table, plus where each sprite sits on the tile canvas in orthogonal and isometric mode.
- `SourceParts` (source_parts.dfy): slicing a source image into 13 or 20 half-tile cells, and
  the minimum-size check.
- `Atlas` (atlas.dfy): the atlas size, in the plain and the power-of-two mode, and the pen
  that places tiles left to right and wraps to the next row.
- `Generator` (generator.dfy): one `Generate` run. It picks the part set, composes the 47
  tiles, lays them out and writes the manifest records.
- `Numbers` and `JsonValues` (numbers.dfy, json.dfy): C# `int` range, the unchecked `(int)`
  cast, `|` on `int`, `Int32.TryParse` and the decimal text the XML serializer writes. Also the
  `dynamic` JSON values the loader indexes into.
- `Tilesets` (tileset.dfy): the tileset constructors, `ImageFromJson`, `BitsFromJson`,
  `TilesFromJson`, `IndexFromTiles`, both `GetTile` overloads and the indexer.
- `XmlReader` (xml_reader.dfy): `FromXmlString`, `DeserializeXmlTile` and
  `DeserializeXmlChildToInt` over an XML node tree.
- `ManifestFormats` (manifest_formats.dfy): the manifest the generator writes, in its
  camel-case JSON form and its `XmlSerializer` form. It also holds the round trips through
  both readers.
- `EndToEnd` (end_to_end.dfy): a generated manifest loaded back resolves every mask 0..255 to
  the tile of its canonical mask. It also restates the lookups of BlobatorTest/Program.cs.

Images are not modelled as pixels. Sprites are part numbers with canvas offsets. Source
crops are rectangles. `LoadImage` and `LoadRegion` are function parameters of the loader,
so a region is "whatever `LoadRegion` returns for these five arguments".

Points where the code behaves in a way a reader might not expect, all modelled as written:

- Power-of-two mode derives the row count as `47 / perRow`, rounded down. The pen wraps only
  once `x` reaches the atlas width, even when the next tile does not fit. `Generate` is
  modelled with exactly this layout (`Atlas.AtlasSizeAsWritten`, `Atlas.Cursor`,
  `Atlas.PenRect`), so in power-of-two mode a tile can stick out of the atlas (see Findings).
  In plain mode the pen wraps after exactly seven tiles and every tile is inside. A corrected
  layout (`Atlas.AtlasSize`, `Atlas.TileRect`) is modelled beside it. It rounds the row count
  up and wraps before a tile that would not fit, and every tile is proved to lie inside it.
- The XML `Indices` loop reads only child elements named `int` whose text parses, and skips
  everything else silently.
- An index literal between the `long` range and 2^96 is stored as a `decimal`, whose `(int)`
  cast throws. A wider one is stored as a `double`, whose unchecked cast gives an unspecified
  `int` without throwing (`JsonValues.DoubleToInt`).
- A bit missing from the JSON `bits` object is an error. A missing `bits` object keeps the
  default weights.

## Model

| member | source | states |
|---|---|---|
| Masks.DefaultBitsAreWeights | Blobator/BlobTileset.cs:41-43 | The default bit list gives direction k, in `TileBits` order from top-left clockwise to left, the weight 2^k. |
| Masks.IsCanonicalForAllCorners | Blobator/Generator.cs:504-518 | A mask is canonical exactly when every corner's diagonal bit is set only if both cardinal neighbours of that corner are set. |
| Masks.Canonicalize | Blobator/Generator.cs:504-518 | The result is canonical, a submask of the input, and keeps its four cardinal bits. It equals the input iff the input is already canonical, and is never larger. |
| Masks.CanonicalizeIsGreatest | Blobator/Generator.cs:504-518 | Every canonical submask of a mask is a submask of its canonical form, so canonicalisation drops only the diagonals it must. |
| Masks.CanonicalizeIdempotent | Blobator/Generator.cs:504-518 | Canonicalising twice is the same as once. |
| Masks.CanonicalMasks | Blobator/Generator.cs:497-523 | The canonical masks in ascending order are exactly 47. A mask is listed iff it is canonical, and each sits at its `CanonicalRank`. |
| Masks.DuplicatesOfFacts | Blobator/Generator.cs:519-521 | The raw masks filed under canonical mask u are ascending, and are exactly the masks other than u that canonicalise to u. |
| Masks.EquivalenceClass | Blobator/Generator.cs:446 | A record's index list starts with its canonical mask, contains exactly the masks that canonicalise to it, and repeats none. |
| Masks.GroupByKey | Blobator/Generator.cs:497-523 | The 0..255 loop with a `HashSet.Add` test, for a key that maps every mask to a mask no larger than it which the key fixes: the masks the key fixes become the uniques, in ascending order, and every other mask is mapped to its key. |
| Masks.GetSets | Blobator/Generator.cs:497-523 | `uniques` is the 47 canonical masks. `duplicates` has a key for exactly the non-canonical masks 0..255, each mapped to its canonical form. |
| Parts.SelectShape | Blobator/Generator.cs:349-427 | The decision table for one quadrant, as an iff for each of the five shapes. Both cardinals set gives Full when the diagonal is set, CornerInner when it is not. One cardinal gives the matching edge. Neither gives CornerOuter. |
| Parts.PartValueBijective | Blobator/Generator.cs:36-61 | The macro `Part` numbering is a bijection between (quadrant, shape) and 0..19. |
| Parts.MicroValueBijective | Blobator/Generator.cs:20-34 | The `PartMicro` numbering is a bijection between micro parts and 0..12. |
| Parts.Shared | Blobator/Generator.cs:20-34 | The micro part for a macro part: all four Fulls share one sprite. Corners stay per quadrant, and edges are shared by the two quadrants on the same side. |
| Parts.SharedInjectiveInQuadrant | Blobator/Generator.cs:20-34 | Within one quadrant, different shapes never share a micro sprite. |
| Parts.QuadrantPart | Blobator/Generator.cs:264-427 | The sprite index drawn in a quadrant is the chosen shape's `PartMicro` or `Part` value, and is below 13 or 20 respectively. |
| Parts.QuadrantPartIgnoresDroppedDiagonals | Blobator/Generator.cs:264-427 | A raw mask and its canonical form draw the same sprite in every quadrant. |
| Parts.MaskOfShapesInverts | Blobator/Generator.cs:349-427 | The four quadrant shapes of a canonical mask determine it. |
| Parts.SameSpriteSameShape | Blobator/Generator.cs:264-427 | Two masks that draw the same sprite in a quadrant chose the same shape there, in the micro and the macro set alike. |
| Parts.DistinctTiles | Blobator/Generator.cs:264-427 | Two canonical masks whose four quadrants draw the same sprites are equal, so the 47 tiles are pairwise distinct. |
| Parts.Offset | Blobator/Generator.cs:367-427 | In orthogonal mode the quadrants sit at the four corners of the tile, split in half on each axis. |
| Parts.SpritesInsideTile | Blobator/Generator.cs:260-427 | In both projections every half-tile sprite lies inside the tile canvas. |
| Parts.OrthogonalSpritesDisjoint | Blobator/Generator.cs:367-427 | In orthogonal mode the four sprites of a tile do not overlap. |
| SourceParts.SliceSourceRejectsSmall | Blobator/Generator.cs:527-532 | A source narrower than 3 cells or shorter than 5 cells (2.5 in isometric mode) is rejected exactly, with an error naming the minimum and the actual size. |
| SourceParts.SliceSourceMicroIffSmall | Blobator/Generator.cs:534-589 | An accepted source yields 13 crops iff it is smaller than 4 by 6 cells (3 cells tall in isometric mode), and 20 crops otherwise, cut from the micro or macro grid. |
| SourceParts.SliceSource | Blobator/Generator.cs:525-589 | Slicing fails exactly for an image below the minimum size or a part bitmap without area. Every crop of an accepted image lies inside the image. |
| Atlas.CeilPow2 | Blobator/Generator.cs:217-222 | The `while (Math.Pow(2, power) < n)` loop yields a power of two that is at least n. |
| Atlas.CeilPow2IsLeast | Blobator/Generator.cs:217-222 | No power of two at least n is smaller than the result. |
| Atlas.AtlasSizeAsWritten | Blobator/Generator.cs:216-240 | Plain mode is 7·size by 7·size, halved in height when isometric. Power-of-two mode's width is the least power of two holding seven tiles. Its height is the least power of two holding `47 / perRow` rows, rounded down and halved when isometric. The width always holds seven tiles. |
| Atlas.CursorClosedForm | Blobator/Generator.cs:450-454 | When the pen wraps exactly after `columns` tiles, tile k sits at column k % columns of row k / columns. |
| Atlas.CursorWithinWidth | Blobator/Generator.cs:450-454 | The pen never starts a tile at or past the right edge and never moves up. With lookahead the whole tile fits across. |
| Atlas.WrapColumnsAsWritten | Blobator/Generator.cs:450-454 | With the `x >= width` test the pen wraps after ⌈width / size⌉ tiles. |
| Atlas.WrapColumnsLookahead | Blobator/Generator.cs:450-454 | Wrapping when the next tile would not fit gives ⌊width / size⌋ tiles per row. |
| Atlas.PenRectIsCursor | Blobator/Generator.cs:443-454 | The rectangle `Generate` records for tile k starts where the pen loop stands after k tiles, stepping `x += size` and wrapping only once `x >= blob.Width`. |
| Atlas.PenRectsDisjoint | Blobator/Generator.cs:443-454 | Two different tiles of the as-written layout never overlap, in either mode, even where one sticks out of the atlas. |
| Atlas.PenStartsInside | Blobator/Generator.cs:443-454 | On a canvas at least seven tiles wide, the pen starts each of the 47 tiles left of the right edge and within the first seven rows. |
| Atlas.PenRectStarts | Blobator/Generator.cs:216-454 | Each of the 47 as-written tiles starts left of the atlas's right edge. Its bottom is within seven tile heights, which is at most the width. |
| Atlas.PowerOfTwoOverflow | Blobator/Generator.cs:216-237 | At size 37 the power-of-two atlas is 512 by 128. The as-written tile 13 is (481, 0, 37, 37), past the right edge. Tile 46 is (148, 111, 37, 37), past the bottom edge. |
| Atlas.CorrectionOnlyGrowsHeight | Blobator/Generator.cs:216-240 | The corrected size keeps the as-written width, and the whole plain-mode atlas. In power-of-two mode it is never shorter than the as-written one. |
| Atlas.TileRectIsCursor | Blobator/Generator.cs:450-454 | The corrected layout is the pen that wraps before a tile that would not fit, across the same width. |
| Atlas.PlainLayoutAsWritten | Blobator/Generator.cs:240-454 | In plain mode the as-written tile rectangles equal the corrected ones, seven per row. |
| Atlas.TilesInsideAtlas | Blobator/Generator.cs:216-454 | In the corrected layout every one of the 47 tiles lies inside the corrected atlas, in both modes and both projections. |
| Atlas.TileRectsDisjoint | Blobator/Generator.cs:443-454 | Two different tiles of the corrected layout do not overlap. |
| Generator.GetParts | Blobator/Generator.cs:197-210 | The part set has 13 or 20 sprites. With no source it succeeds iff not isometric and the half size is positive. With a source it succeeds iff slicing succeeds. |
| Generator.DrawnParts | Blobator/Generator.cs:595-614 | `GetParts(size)` gives 13 placeholder sprites of the given side, one per `PartMicro` value, in enumeration order. |
| Generator.Indices | Blobator/Generator.cs:444-447 | A record's indices start with its canonical mask, are all in 0..255, and list a raw mask iff that mask canonicalises to the record's mask. |
| Generator.Generate | Blobator/Generator.cs:190-459 | A non-positive size fails when the first bitmap is made. A successful run has size at least 2, the as-written atlas size and 47 records. It names the image `path + ".png"` and writes the default bits. |
| Generator.GenerateSucceedsIff | Blobator/Generator.cs:190-210 | A run succeeds exactly when size ≥ 2 and either there is no source and the mode is orthogonal, or the source exists and is big enough. Isometric without a source, and a missing source file, fail with their own errors. |
| Generator.MicroIffSmallSource | Blobator/Generator.cs:210 | A run uses the 13-sprite set iff there is no source or the source is smaller than the macro grid. |
| Generator.TileIsCanonicalMask | Blobator/Generator.cs:254-447 | Record k's first index is the k-th canonical mask, whose rank is k, and tile k is composed from that mask. |
| Generator.EveryMaskInOneRecord | Blobator/Generator.cs:444-447 | Each raw mask 0..255 is listed in exactly one record: the one at the rank of its canonical mask. |
| Generator.IndicesAreMasks | Blobator/Generator.cs:444-447 | Every index a run writes is in 0..255. |
| Generator.RecordMatchesGetSets | Blobator/Generator.cs:446 | A record's tail lists raw mask m iff `duplicates` maps m to the record's mask, which is the LINQ query as written. |
| Generator.TilesInside | Blobator/Generator.cs:216-454 | Every record rectangle of a run starts left of the atlas's right edge, at a non-negative position. In plain mode it lies wholly inside the atlas. |
| Generator.TilesFollowPen | Blobator/Generator.cs:443-454 | Record k's rectangle is one tile at the pen position after k tiles. The pen moves right by `size` and returns to x = 0 one tile height down once `x >= blob.Width`. |
| Generator.TilesDisjoint | Blobator/Generator.cs:443-454 | The record rectangles of a run do not overlap, in either mode. |
| Generator.SpritesExist | Blobator/Generator.cs:264-427 | Every sprite index a tile draws exists in the run's part set, so `parts[…]` never goes out of range. |
| Generator.FullMaskAlone | Blobator/Generator.cs:444-447 | Mask 255 is canonical and is the only index of its record. |
| Generator.DefaultRun | BlobatorTest/Program.cs:78 | `Generate(32, "blobtest")` succeeds with a 224 by 224 atlas and the 13 drawn parts. Its last record is (128, 192, 32, 32) holding only mask 255. |
| Generator.PowerOfTwoRunOverflows | Blobator/Generator.cs:216-454 | `Generate(37, …, powerOfTwo: true)` without a source succeeds with a 512 by 128 atlas. Its record 13 is (481, 0, 37, 37), which does not lie inside the atlas. |
| Numbers.Wrap32 | Blobator/BlobTileset.cs:125 | The `(int)` cast keeps an `int` unchanged and otherwise wraps modulo 2^32 into the `int` range. |
| Numbers.Or32AddPower | Blobator/BlobTileset.cs:140-167 | OR-ing a non-negative `int` below 2^k with 2^k adds 2^k. |
| Numbers.ParseInt32 | Blobator/BlobTileset.Xml.cs:44 | `Int32.TryParse` succeeds only with a value in the `int` range. |
| Numbers.ParseShowInt | Blobator/BlobTileset.Xml.cs:44 | What the serializer writes for an `int`, `TryParse` reads back unchanged. |
| JsonValues.ImplicitInt | Blobator/BlobTileset.cs:91-98 | Assigning a `dynamic` to an `int` slot succeeds exactly for a number in the `int` range, and keeps it. |
| JsonValues.CastInt | Blobator/BlobTileset.cs:124-125 | `(int)index` succeeds exactly for an `int`, a `long` or a literal too wide for a `decimal` (stored as a `double`). A `long` keeps its low 32 bits, an `int` is kept exactly, and a `double` gives an unspecified `int`. A `decimal` outside the `int` range and anything that is not a number throw. |
| JsonValues.WideLiteralCasts | Blobator/BlobTileset.cs:124-125 | The three bands of wide index literals: 2^63 is a `decimal` and its cast throws, 10^29 is a `double` and its cast succeeds, and 2^32 is a `long` that narrows to 0. |
| Tilesets.Fresh | Blobator/BlobTileset.cs:50-53 | A new tileset has no image, no tiles, and the eight default weights. |
| Tilesets.ReadBits | Blobator/BlobTileset.cs:87-108 | The bits section reads iff all eight camel-case keys hold `int` numbers, and the weights are those numbers in key order. Anything else is a bits error. |
| Tilesets.ReadSource | Blobator/BlobTileset.cs:121-122 | A source rectangle reads iff `x`, `y`, `width` and `height` are all present as `int` numbers. |
| Tilesets.ReadIndices | Blobator/BlobTileset.cs:124-125 | An index array reads iff every element casts to `int`, and keeps its order and length. A number, boolean or null is not enumerable and fails; a string yields its character codes. |
| Tilesets.ReadTile | Blobator/BlobTileset.cs:120-125 | A tile reads iff it has a readable `source` and readable `indices`. |
| Tilesets.ReadTiles | Blobator/BlobTileset.cs:119-135 | An array of tiles reads iff every tile reads, giving one entry per tile in order. Any failure is the tiles error. |
| Tilesets.TileJson | Blobator/BlobTileset.cs:120-125 | A tile record with `int` fields, written as JSON, reads back as the same record. |
| Tilesets.Assign | Blobator/BlobTileset.cs:124-126 | After assigning a region to a tile's indices, each listed index maps to the region and every other key is unchanged. |
| Tilesets.LastWriter | Blobator/BlobTileset.cs:119-127 | The record that decides index i is the last one listing i, and there is one iff some record lists i. |
| Tilesets.Place | Blobator/BlobTileset.cs:119-127 | After the tiles loop, an index has a tile exactly when it had one before or some record lists it. |
| Tilesets.PlaceLastWins | Blobator/BlobTileset.cs:119-127 | After the tiles loop, index i is present iff it was before or some record lists it. The last record listing i wins, and untouched keys keep their regions. |
| Tilesets.Load | Blobator/BlobTileset.cs:59-64 | A loaded tileset has an image and eight `int` weights. |
| Tilesets.LoadErrors | Blobator/BlobTileset.cs:67-134 | Each constructor error happens exactly in its case: no image, an image that is not a string, bad bits, no tiles section, or a tiles section that does not read. The load succeeds exactly when none applies. Without `bits` the defaults stay, and the image is `LoadImage` of the path. |
| Tilesets.LoadedTiles | Blobator/BlobTileset.cs:110-127 | A loaded index is present iff some record lists it. Its region is `LoadRegion` of the last such record's rectangle. |
| Tilesets.GetTile | Blobator/BlobTileset.cs:179-197 | A lookup succeeds exactly for an index in 0..255 that has a tile, and returns that tile. |
| Tilesets.SetTile | Blobator/BlobTileset.cs:211-213 | The indexer's setter stores the region under the index, without a range check, and changes nothing else. |
| Tilesets.SetThenGet | Blobator/BlobTileset.cs:207-214 | Reading back what the indexer stored gives the region when the index is in 0..255 and nothing otherwise. Other indices are unaffected. |
| Tilesets.IndexFromTiles | Blobator/BlobTileset.cs:140-167 | The flags index fails exactly when a set flag has no weight in the list, and is otherwise an `int`. |
| Tilesets.OrFlagsDefault | Blobator/BlobTileset.cs:140-167 | With the default weights, OR-ing the weights of the set flags is their sum. |
| Tilesets.MaskOfFlagsInverts | Blobator/BlobTileset.cs:140-167 | Reading a mask's eight flags and rebuilding the mask gives the mask back. |
| Tilesets.IndexFromDefaultBits | Blobator/BlobTileset.cs:140-167 | With the default weights, the flags index is the mask with exactly those flags set. |
| Tilesets.GetTileByFlags | Blobator/BlobTileset.cs:169-177 | The lookup by flags fails exactly when a set flag has no weight in the bit list. With the default weights it is the lookup of the mask with exactly those flags set. |
| Tilesets.GetTileByFlagsIsMaskLookup | Blobator/BlobTileset.cs:169-177 | With the default weights, looking up by a mask's flags is looking up that mask's index. |
| XmlReader.SelectSingle | Blobator/BlobTileset.Xml.cs:29 | `SelectSingleNode(name)` finds nothing iff no child element has that name, and otherwise returns such a child. |
| XmlReader.ChildToInt | Blobator/BlobTileset.Xml.cs:100-109 | A missing child gives 0. A present child gives its parsed text, or 0 when that does not parse. |
| XmlReader.ParsedInts | Blobator/BlobTileset.Xml.cs:88-95 | The `int` children whose text parses, as `int`s. There are never more values than children. |
| XmlReader.ParsedIntsKeepsAll | Blobator/BlobTileset.Xml.cs:88-95 | When every child is an `int` element holding a number, every value is kept in order. |
| XmlReader.LowerFirst | Blobator/BlobTileset.Xml.cs:42 | The key is the local name with its first letter lower-cased. An empty name has no key, since `Substring(0, 1)` throws. |
| XmlReader.BitsData | Blobator/BlobTileset.Xml.cs:40-47 | Reading the bits children fails exactly when some child has an empty local name. |
| XmlReader.BitsDataLastWins | Blobator/BlobTileset.Xml.cs:40-47 | A key is present iff it was before or some child with that key holds a number. The last such child wins, and children whose text does not parse are skipped. |
| XmlReader.XmlEntry | Blobator/BlobTileset.Xml.cs:64-98 | A tile without `Source`, then one without `Indices`, fails with its own error. Otherwise the record is the four rectangle fields and the parsed indices. |
| XmlReader.ReadXmlTile | Blobator/BlobTileset.Xml.cs:64-98 | The dictionary built for a tile reads back, through the JSON tile reader, as exactly the XML record. |
| XmlReader.FirstErr | Blobator/BlobTileset.Xml.cs:56-58 | The first failing tile is found iff some tile fails, and every tile before it succeeds. |
| XmlReader.ReadXmlTiles | Blobator/BlobTileset.Xml.cs:55-59 | The tiles loop succeeds iff every tile does, one dictionary per child in order. On failure it reports the first failing tile's error. |
| XmlReader.FromXml | Blobator/BlobTileset.Xml.cs:18-62 | A successful read has a `Tileset` root and yields exactly the keys `image`, `bits` and `tiles`. |
| XmlReader.FromXmlErrors | Blobator/BlobTileset.Xml.cs:18-62 | Each error happens exactly in its case, checked in source order: no root, no `Image`, no `Bits`, an empty bit name, no `Tiles`, a bad tile. |
| XmlReader.FromXmlValue | Blobator/BlobTileset.Xml.cs:29-59 | A successful read is the `Image` text, the bits dictionary and the tile dictionaries. |
| XmlReader.XmlTilesLoad | Blobator/BlobTileset.Xml.cs:55-59 | The dictionaries read from XML always pass the JSON tiles reader, one record per child, equal to the XML records. |
| XmlReader.XmlBitsLoad | Blobator/BlobTileset.Xml.cs:40-48 | The bits read from XML pass `BitsFromJson` iff all eight keys were found, and the weights are the last value given for each. |
| XmlReader.XmlLoads | Blobator/BlobTileset.Xml.cs:18-62 | Parsed XML always loads unless some bit is missing, which is the bits error. |
| ManifestFormats.BitNamesLowerFirst | Blobator/BlobTileset.Xml.cs:42 | Lower-casing the first letter of each `BlobTileBits` property name gives the key `BitsFromJson` reads. |
| ManifestFormats.BitKeysDistinct | Blobator/BlobTileset.cs:91-98 | The eight bit keys are distinct. |
| ManifestFormats.KeyedNumbersLookup | Blobator/Generator.cs:461-471 | Writing numbers under distinct keys and looking a key up gives its number. |
| ManifestFormats.ManifestToJson | Blobator/Generator.cs:458-471 | The camel-case JSON of a manifest has exactly the keys `image`, `bits` and `tiles`. The image is the path string, and the bits and tiles sections read back as the manifest's weights and records. |
| ManifestFormats.ManifestToXml | Blobator/Generator.cs:473-488 | The serialized document is a `Tileset` element in which the reader finds `Image`, `Bits` and `Tiles` by name. They hold the manifest's image path, its eight weights in `BitNames` order, and one `Tile` element per record. |
| ManifestFormats.TilesJson | Blobator/Generator.cs:461-471 | The JSON tile array has one element per record, and each reads back as that record. |
| ManifestFormats.JsonTilesRead | Blobator/Generator.cs:461-471 | The written `tiles` array reads back as the manifest's records, in order. |
| ManifestFormats.JsonBitsRead | Blobator/Generator.cs:461-471 | The bits section of a written manifest reads back as the manifest's weights. |
| ManifestFormats.JsonRoundTrip | Blobator/Generator.cs:458-471 | Loading a written JSON manifest succeeds. The image is `LoadImage` of the image path, the bits are the manifest's, and each index maps to `LoadRegion` of the last record listing it. |
| ManifestFormats.IntElementValue | Blobator/Generator.cs:473-488 | An `int` written as element text parses back as itself. |
| ManifestFormats.NumberElementReads | Blobator/Generator.cs:473-488 | Each named number element of a written `Source` is found by name and reads back as its value. |
| ManifestFormats.SourceElementReads | Blobator/BlobTileset.Xml.cs:79-82 | The four fields of a written `Source` element read back as the rectangle. |
| ManifestFormats.IndicesElementReads | Blobator/BlobTileset.Xml.cs:88-95 | A written `Indices` element reads back as the same index list. |
| ManifestFormats.TileElementReads | Blobator/BlobTileset.Xml.cs:64-98 | A written `Tile` element reads back as the same record. |
| ManifestFormats.XmlBitsRead | Blobator/BlobTileset.Xml.cs:40-47 | The written `Bits` children read back as the eight camel-case keys with the manifest's weights. |
| ManifestFormats.XmlTilesRead | Blobator/BlobTileset.Xml.cs:55-59 | The written `Tiles` children read back as the same JSON tiles the JSON writer produces. |
| ManifestFormats.XmlRoundTrip | Blobator/Generator.cs:473-488 | Reading back the XML form of a manifest gives exactly the dictionary of its JSON form. |
| EndToEnd.ManifestWritable | Blobator/Generator.cs:443-459 | When the atlas fits an `int`, every field a run writes is an `int` and there are eight bits. |
| EndToEnd.PenRectWritable | Blobator/Generator.cs:443-447 | When the atlas fits an `int`, every tile rectangle a run writes has `int` fields. |
| EndToEnd.OnlyWriter | Blobator/BlobTileset.cs:119-127 | When exactly one record lists an index, that record decides it. |
| EndToEnd.GeneratedTileLoads | Blobator/BlobTileset.cs:179-197 | After loading a run's JSON manifest, every mask 0..255 resolves to `LoadRegion` of the tile at its canonical mask's rank. The image is the written `.png` and the bits are the defaults. |
| EndToEnd.OutOfRangeMisses | Blobator/BlobTileset.cs:185-189 | After loading a run's manifest, no index outside 0..255 is present, and looking one up finds nothing. |
| EndToEnd.GeneratedFlagsLoad | Blobator/BlobTileset.cs:169-177 | After loading a run's manifest, a mask's eight flags resolve to the region of its canonical mask's tile. |
| EndToEnd.GeneratedXmlLoads | Blobator/BlobTileset.Xml.cs:18-62 | Loading a run's XML manifest succeeds and resolves every mask to the same region as the JSON one. |
| EndToEnd.TestMasks | BlobatorTest/Program.cs:11-71 | In the default layout masks 17 and 85 fall in tile 0 at (0, 0), mask 19 in tile 1 at (32, 0), and mask 255 in tile 46 at (128, 192). |
| EndToEnd.DefaultLookup | BlobatorTest/Program.cs:78-83 | The default run's manifest loads. Every mask resolves to its canonical mask's tile rectangle, and looking it up by its eight flags gives the same answer. |
| EndToEnd.TestProgramIndexLookups | BlobatorTest/Program.cs:11-71 | Three of the test program's expected rectangles by index: 17 gives (0, 0), 19 gives (32, 0), 255 gives (128, 192). |
| EndToEnd.TestProgramFlagLookups | BlobatorTest/Program.cs:11-71 | Two by flags: the four diagonal flags alone give (0, 0), and all eight flags give (128, 192). |

## Left out

- Pixels: drawing, brushes, `CreateImage`, `DrawInnerCorner`/`DrawEdge`, bitmap cropping and
  disposal. Sprites are part numbers with offsets, and crops are rectangles.
- `GetParts(int)`: only its 13-sprite count and order are kept, as part numbers. The
  unused `images = GetParts(size)` at Generator.cs:191 is not modelled.
- The command line front end (`Main`, argument parsing, the `indexed` label overlay, the
  font family and the `indented` flag): they only affect output text and pixels.
- File I/O: `File.Exists`, `Image.FromFile`, `blob.Save`, reading and writing the manifest
  text. Existence and image size become the `SourceFile` parameter. JSON and XML are modelled
  as value trees, not as text, so Newtonsoft and `XmlDocument` parsing of characters, escaping
  and whitespace are left out.
- XML attributes, namespaces, comments and general XPath: only child elements, text nodes
  and `SelectSingleNode`/`SelectNodes` by a plain child name are modelled.
- `LowerChar` lower-cases ASCII letters only. `ToLowerInvariant` on other characters is not
  modelled.
- JSON numbers are integers. Fractional numbers, and conversions from strings or booleans
  through `dynamic`, are not modelled.
- Integer literals beyond the range of a `double` (about 1.8·10^308) make the deserializer
  throw. JSON is modelled as the deserialized value, so the model casts such a literal like
  any other `double` instead of failing.
- `HashSet<int>` enumeration order is taken as insertion order, which is ascending here. .NET
  does not promise this, but it holds for a fresh set of small non-negative ints with no
  removals.
- Generator.Generate: `7 * size` and the atlas dimensions are unbounded integers. The end-to-end
  lemmas require the as-written atlas to fit an `int` (`EndToEnd.AtlasFits`) instead of
  modelling overflow.
- Generator.TilesInside: in power-of-two mode it promises only that each tile starts left of
  the right edge, not that the tile lies inside the atlas. The code as written can draw a tile
  past the edge there (Findings, `Generator.PowerOfTwoRunOverflows`). Containment in both modes
  is proved for the corrected layout (`Atlas.TilesInsideAtlas`).
- Exception types and messages are reduced to error constructors. A file that compiles as
  written is assumed; the code throws `TilesetDataException`, which is not defined in the
  files modelled here.
- `TilesFromJson` calls `LoadRegion` while parsing. The model parses every record first and
  then folds the regions in. Any exception aborts the constructor, so the resulting tileset
  is the same.
- `LoadImage` and `LoadRegion` are abstract in the source. Here they are function parameters
  that cannot fail, so their exceptions are not modelled.
- `FromFile(path)` and the `string` constructor are file reads composed with `FromXmlString`
  or the JSON parser, and are left out with the I/O.
- `LowercaseContractResolver`, `JsonBlob`, `JsonRect` and `JsonBits` are not used by the
  generator or the loader and are not modelled.
- Parts.Offset: the contract states only the orthogonal offsets. The isometric diamond points
  (Generator.cs:286, 306, 326, 346) are stated only through `Parts.SpritesInsideTile`, since
  their bare values would just repeat the body.
- The `Image` and `Bits` properties (BlobTileset.cs:206, 215) are plain field accessors and
  are not modelled; of the public properties only the indexer is.
- EndToEnd.TestProgramIndexLookups: states three of the 56 expected rectangles of the test
  program's two tables rather than all of them. Each of the others is an instance of
  `EndToEnd.DefaultLookup`.
- EndToEnd.TestProgramFlagLookups: states two lookups by flags. The others are instances of
  `EndToEnd.DefaultLookup` in the same way.
- Element names: `XmlNode` can hold an element with an empty name, which a parsed
  `XmlDocument` never contains. The `EmptyName` error of `XmlReader.BitsData` therefore
  stands for the exception `Substring(0, 1)` would throw. No parsed document reaches it.

## Findings

| source | as written | input that shows it | evidently intended | confidence | as-written member | corrected member |
|---|---|---|---|---|---|---|
| Blobator/Generator.cs:216-237, 450-454 | Power-of-two mode takes `rows = 47 / imagesPerRow`, rounded down, and the pen wraps only once `x >= blob.Width`. A row can therefore end with a tile that sticks out past the right edge, and the last row may have no room below it. | `size = 37`, `powerOfTwo = true`: the atlas is 512 by 128. Tile 13 is drawn at x = 481 and ends at 518. Tile 46 is drawn at y = 111 and ends at 148. | Wrap before a tile that does not fit, and round the row count up, so that every tile lies inside the atlas. | not executed | Generator.PowerOfTwoRunOverflows | Atlas.TilesInsideAtlas |
