/** The runtime side, `BlobTileset<TImage, TRegion>` (Blobator/BlobTileset.cs): loading a
    manifest into a map from raw mask to region, and looking tiles up by mask or by the
    eight neighbour flags. Loading the image and cutting a region are the subclass's
    business and come in as functions. */
module Tilesets {
  import opened Results
  import opened Numbers
  import opened Masks
  import opened JsonValues

  /** A loaded tileset: the image (absent until loaded), the eight direction bits, and the
      region of every mask the manifest lists. */
  datatype Tileset<TImage, TRegion> = Tileset(image: Option<TImage>, bits: seq<int>, tiles: map<int, TRegion>)

  /** Why loading or a lookup throws. */
  datatype TilesetError =
    | ImageNotFound
    | ImageNotString
    | BadBits
    | TilesNotFound
    | BadTiles
    | BitIndexOutOfRange

  /** The parameterless constructor: default bits and no tiles. */
  function Fresh<TImage, TRegion>(): (t: Tileset<TImage, TRegion>)
    ensures t.image.None? && |t.bits| == 8 && t.tiles == map[]
    ensures forall k | 0 <= k < 8 :: t.bits[k] == Directions[k].Weight() as int
  {
    DefaultBitsAreWeights();
    Tileset(None, DefaultBits, map[])
  }

  /** The keys of the `bits` section, in `Directions` order. */
  const BitKeys: seq<string> := ["topLeft", "top", "topRight", "right", "bottomRight", "bottom", "bottomLeft", "left"]

  /** Bit `k` of a `bits` section, if it is there and converts to `int`. */
  function ReadBit(section: Json, k: nat): (r: Option<int>)
    requires k < 8
    ensures r.Some? <==> Member(section, BitKeys[k]).Some? && ImplicitInt(section.fields[BitKeys[k]]).Some?
  {
    match Member(section, BitKeys[k])
    case None => None
    case Some(v) => ImplicitInt(v)
  }

  /** `BitsFromJson` given a `bits` section: all eight keys must be present and hold an
      `int`; the bits then come in `Directions` order. */
  function ReadBits(section: Json): (r: Result<seq<int>, TilesetError>)
    ensures r.Ok? <==> forall k | 0 <= k < 8 :: ReadBit(section, k).Some?
    ensures r.Err? ==> r.error == BadBits
    ensures r.Ok? ==> |r.value| == 8 && forall k | 0 <= k < 8 ::
      Member(section, BitKeys[k]) == Some(JNumber(r.value[k])) && IsInt32(r.value[k])
  {
    if forall k | 0 <= k < 8 :: ReadBit(section, k).Some? then
      Ok(seq(8, k requires 0 <= k < 8 => ReadBit(section, k).value))
    else Err(BadBits)
  }

  /** A section holding each bit under its key reads back as those bits. */
  lemma ReadBitsOf(section: Json, bits: seq<int>)
    requires |bits| == 8
    requires forall k | 0 <= k < 8 :: Member(section, BitKeys[k]) == Some(JNumber(bits[k])) && IsInt32(bits[k])
    ensures ReadBits(section) == Ok(bits)
  {
    assert forall k | 0 <= k < 8 :: ReadBit(section, k) == Some(bits[k]);
    assert ReadBits(section).value == bits;
  }

  /** One record of the `tiles` section: the source rectangle and the indices using it. */
  datatype TileEntry = TileEntry(x: int, y: int, width: int, height: int, indices: seq<int>)

  /** The `source` rectangle of a record: an object with four `int` members. */
  function ReadSource(source: Json): (r: Option<(int, int, int, int)>)
    ensures r.Some? <==> forall key | key in ["x", "y", "width", "height"] ::
      Member(source, key).Some? && ImplicitInt(source.fields[key]).Some?
  {
    var x, y := Member(source, "x"), Member(source, "y");
    var width, height := Member(source, "width"), Member(source, "height");
    if x.None? || y.None? || width.None? || height.None? then None
    else
      var x, y := ImplicitInt(x.value), ImplicitInt(y.value);
      var width, height := ImplicitInt(width.value), ImplicitInt(height.value);
      if x.None? || y.None? || width.None? || height.None? then None
      else Some((x.value, y.value, width.value, height.value))
  }

  /** The `indices` of a record, as `foreach (var index in …) (int)index` sees them: the
      elements of an array, cast one by one; the characters of a string, as their codes;
      nothing from an empty object. Anything else throws. */
  function ReadIndices(indices: Json): (r: Option<seq<int>>)
    ensures indices.JArray? ==> (r.Some? <==> forall i | 0 <= i < |indices.items| :: CastInt(indices.items[i]).Some?)
    ensures indices.JArray? && r.Some? ==>
      && |r.value| == |indices.items|
      && forall i | 0 <= i < |indices.items| :: r.value[i] == CastInt(indices.items[i]).value
    ensures indices.JNumber? || indices.JBool? || indices.JNull? ==> r.None?
  {
    match indices
    case JArray(items) =>
      if forall i | 0 <= i < |items| :: CastInt(items[i]).Some? then
        Some(seq(|items|, i requires 0 <= i < |items| => CastInt(items[i]).value))
      else None
    case JString(s) => Some(seq(|s|, i requires 0 <= i < |s| => s[i] as int))
    case JObject(fields) => if |fields| == 0 then Some([]) else None
    case _ => None
  }

  /** One record of the `tiles` section, read as `TilesFromJson` reads it. */
  function ReadTile(tile: Json): (r: Option<TileEntry>)
    ensures r.Some? <==>
      && Member(tile, "source").Some? && ReadSource(tile.fields["source"]).Some?
      && Member(tile, "indices").Some? && ReadIndices(tile.fields["indices"]).Some?
  {
    match Member(tile, "source")
    case None => None
    case Some(source) =>
      match ReadSource(source)
      case None => None
      case Some(rect) =>
        match Member(tile, "indices")
        case None => None
        case Some(indices) =>
          match ReadIndices(indices)
          case None => None
          case Some(ix) => Some(TileEntry(rect.0, rect.1, rect.2, rect.3, ix))
  }

  /** The records of a `tiles` section: every element of an array must be a record; an
      empty string or object has no records; anything else throws. */
  function ReadTiles(section: Json): (r: Result<seq<TileEntry>, TilesetError>)
    ensures r.Err? ==> r.error == BadTiles
    ensures section.JArray? ==> (r.Ok? <==> forall i | 0 <= i < |section.items| :: ReadTile(section.items[i]).Some?)
    ensures section.JArray? && r.Ok? ==>
      && |r.value| == |section.items|
      && forall i | 0 <= i < |section.items| :: r.value[i] == ReadTile(section.items[i]).value
  {
    match section
    case JArray(items) =>
      if forall i | 0 <= i < |items| :: ReadTile(items[i]).Some? then
        Ok(seq(|items|, i requires 0 <= i < |items| => ReadTile(items[i]).value))
      else Err(BadTiles)
    case JString(s) => if |s| == 0 then Ok([]) else Err(BadTiles)
    case JObject(fields) => if |fields| == 0 then Ok([]) else Err(BadTiles)
    case _ => Err(BadTiles)
  }

  /** The `source` object of a record, as the serializers write it. */
  function SourceJson(x: int, y: int, width: int, height: int): (j: Json)
    requires IsInt32(x) && IsInt32(y) && IsInt32(width) && IsInt32(height)
    ensures ReadSource(j) == Some((x, y, width, height))
  {
    var j := JObject(map["x" := JNumber(x), "y" := JNumber(y), "width" := JNumber(width), "height" := JNumber(height)]);
    assert Member(j, "x") == Some(JNumber(x)) && Member(j, "y") == Some(JNumber(y));
    assert Member(j, "width") == Some(JNumber(width)) && Member(j, "height") == Some(JNumber(height));
    j
  }

  /** The `indices` array of a record, as the serializers write it. */
  function IndicesJson(indices: seq<int>): (j: Json)
    requires forall i | 0 <= i < |indices| :: IsInt32(indices[i])
    ensures ReadIndices(j) == Some(indices)
  {
    var items := seq(|indices|, i requires 0 <= i < |indices| => JNumber(indices[i]));
    forall i | 0 <= i < |items|
      ensures CastInt(items[i]) == Some(indices[i])
    {
      assert items[i] == JNumber(indices[i]);
      Int32IsInt64(indices[i]);
    }
    assert ReadIndices(JArray(items)).value == indices;
    JArray(items)
  }

  /** A record as the serializers write it: the loader reads back exactly this record. */
  function TileJson(e: TileEntry): (j: Json)
    requires IsInt32(e.x) && IsInt32(e.y) && IsInt32(e.width) && IsInt32(e.height)
    requires forall i | 0 <= i < |e.indices| :: IsInt32(e.indices[i])
    ensures ReadTile(j) == Some(e)
  {
    var source := SourceJson(e.x, e.y, e.width, e.height);
    var indices := IndicesJson(e.indices);
    var j := JObject(map["source" := source, "indices" := indices]);
    assert Member(j, "source") == Some(source) && Member(j, "indices") == Some(indices);
    j
  }

  /** `tiles[index] = region` for every index of one record, in order. */
  function Assign<TRegion>(tiles: map<int, TRegion>, indices: seq<int>, region: TRegion): (r: map<int, TRegion>)
    ensures forall i :: i in r <==> i in tiles || i in indices
    ensures forall i | i in r :: r[i] == if i in indices then region else tiles[i]
    decreases |indices|
  {
    if indices == [] then tiles
    else Assign(tiles[indices[0] := region], indices[1..], region)
  }

  /** The region a record stands for. */
  function RegionOf<TImage, TRegion>(entry: TileEntry, image: TImage, loadRegion: (TImage, int, int, int, int) -> TRegion): TRegion {
    loadRegion(image, entry.x, entry.y, entry.width, entry.height)
  }

  /** The records applied one after the other: afterwards an index has a tile exactly when
      it had one before or some record lists it. */
  function Place<TImage, TRegion>(tiles: map<int, TRegion>, entries: seq<TileEntry>, image: TImage,
                                  loadRegion: (TImage, int, int, int, int) -> TRegion): (r: map<int, TRegion>)
    ensures forall i :: i in r <==> i in tiles || exists k | 0 <= k < |entries| :: i in entries[k].indices
    decreases |entries|
  {
    if entries == [] then tiles
    else Place(Assign(tiles, entries[0].indices, RegionOf(entries[0], image, loadRegion)), entries[1..], image, loadRegion)
  }

  /** The position of the last record listing `i`, if any. */
  function LastWriter(entries: seq<TileEntry>, i: int): (r: Option<nat>)
    ensures r.Some? <==> exists k | 0 <= k < |entries| :: i in entries[k].indices
    ensures r.Some? ==>
      && r.value < |entries| && i in entries[r.value].indices
      && forall k | r.value < k < |entries| :: i !in entries[k].indices
    decreases |entries|
  {
    if entries == [] then None
    else match LastWriter(entries[1..], i)
      case Some(k) => Some(k + 1)
      case None => if i in entries[0].indices then Some(0) else None
  }

  /** Later records overwrite earlier ones: an index maps to the region of the last record
      that lists it, and an index no record lists keeps what it had. */
  lemma {:induction false} PlaceLastWins<TImage, TRegion>(tiles: map<int, TRegion>, entries: seq<TileEntry>, image: TImage,
                                                        loadRegion: (TImage, int, int, int, int) -> TRegion, i: int)
    ensures var r := Place(tiles, entries, image, loadRegion);
      && (i in r <==> i in tiles || LastWriter(entries, i).Some?)
      && (LastWriter(entries, i).Some? ==> r[i] == RegionOf(entries[LastWriter(entries, i).value], image, loadRegion))
      && (LastWriter(entries, i).None? && i in tiles ==> r[i] == tiles[i])
    decreases |entries|
  {
    if entries != [] {
      var next := Assign(tiles, entries[0].indices, RegionOf(entries[0], image, loadRegion));
      PlaceLastWins(next, entries[1..], image, loadRegion, i);
    }
  }

  /** The JSON constructor: `ImageFromJson`, then `BitsFromJson`, then `TilesFromJson`,
      each throwing on what it cannot read. */
  function Load<TImage, TRegion>(json: map<string, Json>, loadImage: string -> TImage,
                                 loadRegion: (TImage, int, int, int, int) -> TRegion): (r: Result<Tileset<TImage, TRegion>, TilesetError>)
    ensures r.Ok? ==>
      && r.value.image.Some? && |r.value.bits| == 8
      && forall k | 0 <= k < 8 :: IsInt32(r.value.bits[k])
  {
    if "image" !in json then Err(ImageNotFound)
    else if !json["image"].JString? then Err(ImageNotString)
    else
      var image := loadImage(json["image"].s);
      var bits :- if "bits" in json then ReadBits(json["bits"]) else Ok(DefaultBits);
      if "tiles" !in json then Err(TilesNotFound)
      else
        var entries :- ReadTiles(json["tiles"]);
        Ok(Tileset(Some(image), bits, Place(map[], entries, image, loadRegion)))
  }

  /** The checks come in the source's order, each error happening exactly in its case, and
      the load succeeds exactly when none of them applies. A missing `bits` section keeps
      the default bits. */
  lemma LoadErrors<TImage, TRegion>(json: map<string, Json>, loadImage: string -> TImage,
                                    loadRegion: (TImage, int, int, int, int) -> TRegion)
    ensures var r := Load(json, loadImage, loadRegion);
      && ("image" !in json <==> r == Err(ImageNotFound))
      && ("image" in json && !json["image"].JString? <==> r == Err(ImageNotString))
      && (r == Err(BadBits) <==> "image" in json && json["image"].JString? && "bits" in json && ReadBits(json["bits"]).Err?)
      && (r == Err(TilesNotFound) <==>
           && "image" in json && json["image"].JString?
           && ("bits" in json ==> ReadBits(json["bits"]).Ok?) && "tiles" !in json)
      && (r == Err(BadTiles) <==>
           && "image" in json && json["image"].JString?
           && ("bits" in json ==> ReadBits(json["bits"]).Ok?)
           && "tiles" in json && ReadTiles(json["tiles"]).Err?)
      && (r.Ok? <==>
           && "image" in json && json["image"].JString?
           && ("bits" in json ==> ReadBits(json["bits"]).Ok?)
           && "tiles" in json && ReadTiles(json["tiles"]).Ok?)
      && (r.Ok? && "bits" !in json ==> r.value.bits == DefaultBits)
      && (r.Ok? ==> r.value.image == Some(loadImage(json["image"].s)))
  {
  }

  /** A loaded tileset maps an index to the region of the last record listing it. */
  lemma LoadedTiles<TImage, TRegion>(json: map<string, Json>, loadImage: string -> TImage,
                                     loadRegion: (TImage, int, int, int, int) -> TRegion, i: int)
    requires Load(json, loadImage, loadRegion).Ok?
    ensures var t := Load(json, loadImage, loadRegion).value;
      var entries := ReadTiles(json["tiles"]).value;
      && (i in t.tiles <==> LastWriter(entries, i).Some?)
      && (i in t.tiles ==> t.tiles[i] == RegionOf(entries[LastWriter(entries, i).value], t.image.value, loadRegion))
  {
    var t := Load(json, loadImage, loadRegion).value;
    var entries := ReadTiles(json["tiles"]).value;
    PlaceLastWins(map[], entries, t.image.value, loadRegion, i);
  }

  /** `GetTile(index, out region)`: indices outside 0..255 never resolve, whatever the
      manifest listed; inside, the region recorded for the index, if any. */
  function GetTile<TImage, TRegion>(t: Tileset<TImage, TRegion>, index: int): (r: Option<TRegion>)
    ensures r.Some? ==> 0 <= index <= 255 && index in t.tiles && r.value == t.tiles[index]
    ensures 0 <= index <= 255 && index in t.tiles ==> r.Some?
  {
    if index < 0 || index > 255 then None
    else if index in t.tiles then Some(t.tiles[index])
    else None
  }

  /** The indexer's setter: `tiles[index] = value`, with no range check. */
  function SetTile<TImage, TRegion>(t: Tileset<TImage, TRegion>, index: int, region: TRegion): (u: Tileset<TImage, TRegion>)
    ensures u.image == t.image && u.bits == t.bits
    ensures index in u.tiles && u.tiles[index] == region
    ensures forall i | i != index :: (i in u.tiles <==> i in t.tiles) && (i in t.tiles ==> u.tiles[i] == t.tiles[i])
  {
    t.(tiles := t.tiles[index := region])
  }

  /** Reading back through the indexer returns what was set, when the index is in range,
      and leaves every other index as it was. An out-of-range index is stored but can never
      be read back. */
  lemma SetThenGet<TImage, TRegion>(t: Tileset<TImage, TRegion>, index: int, region: TRegion, j: int)
    ensures GetTile(SetTile(t, index, region), j) ==
      if j == index then (if 0 <= j <= 255 then Some(region) else None) else GetTile(t, j)
  {
  }

  /** `index |= bits[k]` for each of the first `n` flags that is set, starting from 0. */
  function OrFlags(bits: seq<int>, flags: seq<bool>, n: nat): (r: int)
    requires n <= |flags|
    requires forall k | 0 <= k < n :: flags[k] ==> k < |bits|
    ensures IsInt32(r)
  {
    if n == 0 then 0
    else if flags[n - 1] then Or32(OrFlags(bits, flags, n - 1), bits[n - 1])
    else OrFlags(bits, flags, n - 1)
  }

  /** `IndexFromTiles`: the bitwise OR of the bits whose flags are set, in `int` arithmetic.
      A set flag beyond the end of a shortened bit list throws. */
  function IndexFromTiles(bits: seq<int>, topLeft: bool, top: bool, topRight: bool, right: bool,
                          bottomRight: bool, bottom: bool, bottomLeft: bool, left: bool): (r: Result<int, TilesetError>)
    ensures var flags := [topLeft, top, topRight, right, bottomRight, bottom, bottomLeft, left];
      r.Err? <==> exists k | 0 <= k < 8 :: flags[k] && k >= |bits|
    ensures r.Err? ==> r.error == BitIndexOutOfRange
    ensures r.Ok? ==> IsInt32(r.value)
  {
    var flags := [topLeft, top, topRight, right, bottomRight, bottom, bottomLeft, left];
    if exists k | 0 <= k < 8 :: flags[k] && k >= |bits| then Err(BitIndexOutOfRange)
    else Ok(OrFlags(bits, flags, 8))
  }

  /** The sum of `Pow2(k)` over the first `n` flags that are set. */
  function FlagSum(flags: seq<bool>, n: nat): (r: nat)
    requires n <= |flags|
    ensures r < Pow2(n)
  {
    if n == 0 then 0
    else FlagSum(flags, n - 1) + (if flags[n - 1] then Pow2(n - 1) else 0)
  }

  /** The default bits are the powers of two. */
  lemma DefaultBitsArePowers()
    ensures |DefaultBits| == 8 && forall k | 0 <= k < 8 :: DefaultBits[k] == Pow2(k)
  {
    assert Pow2(1) == 2 && Pow2(2) == 4 && Pow2(3) == 8 && Pow2(4) == 16;
    assert Pow2(5) == 32 && Pow2(6) == 64 && Pow2(7) == 128;
  }

  /** With the default bits, OR-ing distinct powers of two adds them. */
  lemma {:induction false} OrFlagsDefault(flags: seq<bool>, n: nat)
    requires |flags| == 8 && n <= 8
    ensures OrFlags(DefaultBits, flags, n) == FlagSum(flags, n)
  {
    if n > 0 {
      OrFlagsDefault(flags, n - 1);
      DefaultBitsArePowers();
      if flags[n - 1] {
        Or32AddPower(FlagSum(flags, n - 1), n - 1);
      }
    }
  }

  /** A flag's contribution to a sum. */
  function FlagValue(on: bool, weight: int): int {
    if on then weight else 0
  }

  /** A flag's contribution to a mask. */
  function FlagBit(on: bool, weight: Mask): Mask {
    if on then weight else 0
  }

  /** The mask with a bit set for each flag that is set, using the direction flags. */
  function MaskOfFlags(topLeft: bool, top: bool, topRight: bool, right: bool,
                       bottomRight: bool, bottom: bool, bottomLeft: bool, left: bool): (m: Mask)
    ensures Has(m, TopLeft) == topLeft && Has(m, Top) == top && Has(m, TopRight) == topRight
    ensures Has(m, Right) == right && Has(m, BottomRight) == bottomRight && Has(m, Bottom) == bottom
    ensures Has(m, BottomLeft) == bottomLeft && Has(m, Left) == left
  {
    FlagBit(topLeft, TopLeft.Weight()) | FlagBit(top, Top.Weight()) | FlagBit(topRight, TopRight.Weight())
    | FlagBit(right, Right.Weight()) | FlagBit(bottomRight, BottomRight.Weight())
    | FlagBit(bottom, Bottom.Weight()) | FlagBit(bottomLeft, BottomLeft.Weight()) | FlagBit(left, Left.Weight())
  }

  /** The mask of the flags, read as an integer, is the sum of their weights. */
  lemma MaskOfFlagsValue(topLeft: bool, top: bool, topRight: bool, right: bool,
                         bottomRight: bool, bottom: bool, bottomLeft: bool, left: bool)
    ensures MaskOfFlags(topLeft, top, topRight, right, bottomRight, bottom, bottomLeft, left) as int
      == FlagValue(topLeft, 1) + FlagValue(top, 2) + FlagValue(topRight, 4) + FlagValue(right, 8)
       + FlagValue(bottomRight, 16) + FlagValue(bottom, 32) + FlagValue(bottomLeft, 64) + FlagValue(left, 128)
  {
  }

  /** A mask is determined by its eight flags. */
  lemma MaskOfFlagsInverts(m: Mask)
    ensures MaskOfFlags(Has(m, TopLeft), Has(m, Top), Has(m, TopRight), Has(m, Right),
                        Has(m, BottomRight), Has(m, Bottom), Has(m, BottomLeft), Has(m, Left)) == m
  {
  }

  /** With the default bits, `IndexFromTiles` is the mask of the flags. */
  lemma IndexFromDefaultBits(topLeft: bool, top: bool, topRight: bool, right: bool,
                             bottomRight: bool, bottom: bool, bottomLeft: bool, left: bool)
    ensures IndexFromTiles(DefaultBits, topLeft, top, topRight, right, bottomRight, bottom, bottomLeft, left)
      == Ok(MaskOfFlags(topLeft, top, topRight, right, bottomRight, bottom, bottomLeft, left) as int)
  {
    var flags := [topLeft, top, topRight, right, bottomRight, bottom, bottomLeft, left];
    OrFlagsDefault(flags, 8);
    MaskOfFlagsValue(topLeft, top, topRight, right, bottomRight, bottom, bottomLeft, left);
    FlagSumOfEight(flags);
  }

  /** The sum over all eight flags, written out. */
  lemma FlagSumOfEight(flags: seq<bool>)
    requires |flags| == 8
    ensures FlagSum(flags, 8) == FlagValue(flags[0], 1) + FlagValue(flags[1], 2) + FlagValue(flags[2], 4)
      + FlagValue(flags[3], 8) + FlagValue(flags[4], 16) + FlagValue(flags[5], 32)
      + FlagValue(flags[6], 64) + FlagValue(flags[7], 128)
  {
    assert FlagSum(flags, 1) == FlagValue(flags[0], 1);
    assert FlagSum(flags, 2) == FlagSum(flags, 1) + FlagValue(flags[1], 2);
    assert FlagSum(flags, 3) == FlagSum(flags, 2) + FlagValue(flags[2], 4);
    assert FlagSum(flags, 4) == FlagSum(flags, 3) + FlagValue(flags[3], 8);
    assert FlagSum(flags, 5) == FlagSum(flags, 4) + FlagValue(flags[4], 16);
    assert FlagSum(flags, 6) == FlagSum(flags, 5) + FlagValue(flags[5], 32);
    assert FlagSum(flags, 7) == FlagSum(flags, 6) + FlagValue(flags[6], 64);
  }

  /** `GetTile(topLeft, …, left, out region)`: the index from the flags, then the lookup. */
  function GetTileByFlags<TImage, TRegion>(t: Tileset<TImage, TRegion>, topLeft: bool, top: bool, topRight: bool, right: bool,
                                           bottomRight: bool, bottom: bool, bottomLeft: bool, left: bool): (r: Result<Option<TRegion>, TilesetError>)
    ensures var flags := [topLeft, top, topRight, right, bottomRight, bottom, bottomLeft, left];
      r.Err? <==> exists k | 0 <= k < 8 :: flags[k] && k >= |t.bits|
    ensures t.bits == DefaultBits ==>
      r == Ok(GetTile(t, MaskOfFlags(topLeft, top, topRight, right, bottomRight, bottom, bottomLeft, left) as int))
  {
    IndexFromDefaultBits(topLeft, top, topRight, right, bottomRight, bottom, bottomLeft, left);
    var index :- IndexFromTiles(t.bits, topLeft, top, topRight, right, bottomRight, bottom, bottomLeft, left);
    Ok(GetTile(t, index))
  }

  /** With the default bits, looking a tile up by flags is looking up their mask. */
  lemma GetTileByFlagsIsMaskLookup<TImage, TRegion>(t: Tileset<TImage, TRegion>, m: Mask)
    requires t.bits == DefaultBits
    ensures GetTileByFlags(t, Has(m, TopLeft), Has(m, Top), Has(m, TopRight), Has(m, Right),
                           Has(m, BottomRight), Has(m, Bottom), Has(m, BottomLeft), Has(m, Left))
      == Ok(GetTile(t, m as int))
  {
    IndexFromDefaultBits(Has(m, TopLeft), Has(m, Top), Has(m, TopRight), Has(m, Right),
                         Has(m, BottomRight), Has(m, Bottom), Has(m, BottomLeft), Has(m, Left));
    MaskOfFlagsInverts(m);
  }
}
