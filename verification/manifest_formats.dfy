/** Writing the manifest (the end of `Generate` in Blobator/Generator.cs): as JSON with
    camel-case member names, or through `XmlSerializer` with the class and property names
    of `Blob`, `BlobTileBits`, `BlobTile` and `BlobRect`. The text form of either is not
    modelled; JSON is the dictionary the loader receives and XML the parsed document. */
module ManifestFormats {
  import opened Results
  import opened Numbers
  import opened Geometry
  import opened JsonValues
  import opened Tilesets
  import opened XmlReader
  import opened Generator

  /** The `BlobTileBits` property names, in `Directions` order. */
  const BitNames: seq<string> := ["TopLeft", "Top", "TopRight", "Right", "BottomRight", "Bottom", "BottomLeft", "Left"]

  /** A name whose first letter lowers to `key`'s and whose rest is `key`'s lowers to `key`. */
  lemma LowerFirstIs(name: string, key: string)
    requires |name| == |key| > 0 && key[0] == LowerChar(name[0]) && name[1..] == key[1..]
    ensures LowerFirst(name) == Some(key)
  {
    var r := LowerFirst(name).value;
    assert r == [r[0]] + r[1..];
    assert key == [key[0]] + key[1..];
  }

  /** The camel-case form of each property name is the key the loader looks for. */
  lemma BitNamesLowerFirst()
    ensures |BitNames| == |BitKeys| == 8
    ensures forall k | 0 <= k < 8 :: LowerFirst(BitNames[k]) == Some(BitKeys[k])
  {
    assert LowerChar('T') == 't' && LowerChar('B') == 'b';
    assert LowerChar('R') == 'r' && LowerChar('L') == 'l';
    forall k | 0 <= k < 8
      ensures LowerFirst(BitNames[k]) == Some(BitKeys[k])
    {
      LowerFirstIs(BitNames[k], BitKeys[k]);
    }
  }

  /** The eight keys are different strings. */
  lemma BitKeysDistinct()
    ensures forall i, j | 0 <= i < j < |BitKeys| :: BitKeys[i] != BitKeys[j]
  {
    assert forall i, j | 0 <= i < j < |BitKeys| :: |BitKeys[i]| != |BitKeys[j]|;
  }

  /** The manifest fits the `int` fields of the serialized classes. */
  predicate Writable(m: Manifest) {
    && |m.bits| == 8
    && (forall k | 0 <= k < 8 :: IsInt32(m.bits[k]))
    && forall i | 0 <= i < |m.tiles| :: RecordWritable(m.tiles[i])
  }

  predicate RecordWritable(t: TileRecord) {
    && IsInt32(t.source.x) && IsInt32(t.source.y) && IsInt32(t.source.width) && IsInt32(t.source.height)
    && forall j | 0 <= j < |t.indices| :: IsInt32(t.indices[j])
  }

  /** A generator record as the loader's record. */
  function EntryOf(t: TileRecord): TileEntry {
    TileEntry(t.source.x, t.source.y, t.source.width, t.source.height, t.indices)
  }

  /** The loader's records of a manifest. */
  function Entries(m: Manifest): (es: seq<TileEntry>)
    ensures |es| == |m.tiles| && forall i | 0 <= i < |m.tiles| :: es[i] == EntryOf(m.tiles[i])
  {
    seq(|m.tiles|, i requires 0 <= i < |m.tiles| => EntryOf(m.tiles[i]))
  }

  /** `keys[i] := values[i]` into `acc`, in order. */
  function KeyedNumbers(acc: map<string, Json>, keys: seq<string>, values: seq<int>): (r: map<string, Json>)
    requires |keys| == |values|
    decreases |keys|
  {
    if keys == [] then acc
    else KeyedNumbers(acc[keys[0] := JNumber(values[0])], keys[1..], values[1..])
  }

  /** With distinct keys, each key holds its own value. */
  lemma {:induction false} KeyedNumbersLookup(acc: map<string, Json>, keys: seq<string>, values: seq<int>, k: nat)
    requires |keys| == |values| && k < |keys|
    requires forall i, j | 0 <= i < j < |keys| :: keys[i] != keys[j]
    ensures keys[k] in KeyedNumbers(acc, keys, values)
    ensures KeyedNumbers(acc, keys, values)[keys[k]] == JNumber(values[k])
    decreases |keys|
  {
    var next := acc[keys[0] := JNumber(values[0])];
    if k == 0 {
      KeyedNumbersKeeps(next, keys[1..], values[1..], keys[0]);
    } else {
      KeyedNumbersLookup(next, keys[1..], values[1..], k - 1);
    }
  }

  /** A key the list does not name keeps its value. */
  lemma {:induction false} KeyedNumbersKeeps(acc: map<string, Json>, keys: seq<string>, values: seq<int>, key: string)
    requires |keys| == |values| && key in acc && key !in keys
    ensures key in KeyedNumbers(acc, keys, values) && KeyedNumbers(acc, keys, values)[key] == acc[key]
    decreases |keys|
  {
    if keys != [] {
      KeyedNumbersKeeps(acc[keys[0] := JNumber(values[0])], keys[1..], values[1..], key);
    }
  }

  /** The manifest as the JSON loader receives it: exactly the three camel-case sections,
      each of which the loader's section readers give back unchanged. */
  function ManifestToJson(m: Manifest): (json: map<string, Json>)
    requires Writable(m)
    ensures json.Keys == {"image", "bits", "tiles"} && json["image"] == JString(m.image)
    ensures ReadBits(json["bits"]) == Ok(m.bits)
    ensures ReadTiles(json["tiles"]) == Ok(Entries(m))
  {
    JsonBitsRead(m.bits);
    JsonTilesRead(m);
    Dictionary(m.image, KeyedNumbers(map[], BitKeys, m.bits), TilesJson(m.tiles))
  }

  /** The written `tiles` array reads back as the manifest's records. */
  lemma JsonTilesRead(m: Manifest)
    requires Writable(m)
    ensures ReadTiles(JArray(TilesJson(m.tiles))) == Ok(Entries(m))
  {
    var items := TilesJson(m.tiles);
    assert forall i | 0 <= i < |items| :: ReadTile(items[i]) == Some(EntryOf(m.tiles[i]));
    assert ReadTiles(JArray(items)).value == Entries(m);
  }

  /** The `tiles` section: one object per record, each reading back as its record. */
  function TilesJson(tiles: seq<TileRecord>): (js: seq<Json>)
    requires forall i | 0 <= i < |tiles| :: RecordWritable(tiles[i])
    ensures |js| == |tiles| && forall i | 0 <= i < |tiles| :: ReadTile(js[i]) == Some(EntryOf(tiles[i]))
  {
    seq(|tiles|, i requires 0 <= i < |tiles| => assert RecordWritable(tiles[i]); TileJson(EntryOf(tiles[i])))
  }

  /** The written bits read back unchanged. */
  lemma JsonBitsRead(bits: seq<int>)
    requires |bits| == 8 && forall k | 0 <= k < 8 :: IsInt32(bits[k])
    ensures ReadBits(JObject(KeyedNumbers(map[], BitKeys, bits))) == Ok(bits)
  {
    var section := JObject(KeyedNumbers(map[], BitKeys, bits));
    BitKeysDistinct();
    forall k | 0 <= k < 8
      ensures Member(section, BitKeys[k]) == Some(JNumber(bits[k]))
    {
      KeyedNumbersLookup(map[], BitKeys, bits, k);
    }
    ReadBitsOf(section, bits);
  }

  /** Loading a written manifest gives its image, its bits, and the regions of its records,
      a later record winning for an index two records list. */
  lemma JsonRoundTrip<TImage, TRegion>(m: Manifest, loadImage: string -> TImage,
                                      loadRegion: (TImage, int, int, int, int) -> TRegion)
    requires Writable(m)
    ensures Load(ManifestToJson(m), loadImage, loadRegion)
      == Ok(Tileset(Some(loadImage(m.image)), m.bits, Place(map[], Entries(m), loadImage(m.image), loadRegion)))
  {
    var json := ManifestToJson(m);
  }

  /** An element holding one number, as `XmlSerializer` writes an `int`. */
  function IntElement(name: string, v: int): XmlNode {
    Element(name, [Text(ShowInt(v))])
  }

  /** One number element per name, in order: the children of `<Bits>` and `<Source>`. */
  function NumberElements(names: seq<string>, values: seq<int>): (ns: seq<XmlNode>)
    requires |names| == |values|
    ensures |ns| == |names|
  {
    if names == [] then [] else [IntElement(names[0], values[0])] + NumberElements(names[1..], values[1..])
  }

  /** `<Image>path</Image>`; an empty string is written as an empty element. */
  function ImageElement(image: string): XmlNode {
    Element("Image", if image == [] then [] else [Text(image)])
  }

  /** One `<Tile>`: the `Source` rectangle and the `Indices` array of `int` elements. */
  function TileElement(t: TileRecord): XmlNode {
    Element("Tile", [SourceElement(t.source), IndicesElement(t.indices)])
  }

  /** The children of `<Tiles>`: one element per record. */
  function TileElements(tiles: seq<TileRecord>): (ns: seq<XmlNode>)
    ensures |ns| == |tiles|
  {
    seq(|tiles|, i requires 0 <= i < |tiles| => TileElement(tiles[i]))
  }

  /** The document `XmlSerializer` writes for the manifest (attributes are not modelled). The
      reader finds each section by the name it looks up, holding the manifest's image, bits
      and tiles. */
  function ManifestToXml(m: Manifest): (root: XmlNode)
    requires |m.bits| == 8
    ensures LocalName(root) == "Tileset"
    ensures SelectSingle(root, "Image") == Some(ImageElement(m.image))
    ensures SelectSingle(root, "Bits") == Some(Element("Bits", NumberElements(BitNames, m.bits)))
    ensures SelectSingle(root, "Tiles") == Some(Element("Tiles", TileElements(m.tiles)))
  {
    var root := Element("Tileset", [
      ImageElement(m.image),
      Element("Bits", NumberElements(BitNames, m.bits)),
      Element("Tiles", TileElements(m.tiles))]);
    assert "Tiles"[0] != "Image"[0];
    assert |"Bits"| != |"Image"| && |"Tiles"| != |"Bits"|;
    SelectSingleAt(root, "Image", 0);
    SelectSingleAt(root, "Bits", 1);
    SelectSingleAt(root, "Tiles", 2);
    root
  }

  /** A written number reads back as itself. */
  lemma IntElementValue(name: string, v: int)
    requires IsInt32(v)
    ensures TextValue(IntElement(name, v)) == Some(v)
  {
    ParseShowInt(v);
  }

  /** `<Source>` with the four fields of a rectangle. */
  function SourceElement(r: Rect): XmlNode {
    Element("Source", NumberElements(RectNames, [r.x, r.y, r.width, r.height]))
  }

  /** `<Indices>` with one `int` element per index. */
  function IndicesElement(indices: seq<int>): XmlNode {
    Element("Indices", seq(|indices|, j requires 0 <= j < |indices| => IntElement("int", indices[j])))
  }

  /** The field names of `BlobRect`, in declaration order. */
  const RectNames: seq<string> := ["X", "Y", "Width", "Height"]

  /** The four field names of `<Source>` are different. */
  lemma RectNamesDistinct()
    ensures |RectNames| == 4
    ensures forall i, j | 0 <= i < j < |RectNames| :: RectNames[i] != RectNames[j]
  {
    assert "X"[0] != "Y"[0];
    assert forall i, j | 0 <= i < j < |RectNames| && i + j > 1 :: |RectNames[i]| != |RectNames[j]|;
  }

  /** The `k`th number element holds the `k`th name and value. */
  lemma {:induction false} NumberElementAt(names: seq<string>, values: seq<int>, k: nat)
    requires |names| == |values| && k < |names|
    ensures NumberElements(names, values)[k] == IntElement(names[k], values[k])
    decreases |names|
  {
    if k > 0 {
      NumberElementAt(names[1..], values[1..], k - 1);
    }
  }

  /** Under distinct names, each number element of a parent reads back as its value. */
  lemma NumberElementReads(tag: string, names: seq<string>, values: seq<int>, k: nat)
    requires |names| == |values| && k < |names| && IsInt32(values[k])
    requires forall i, j | 0 <= i < j < |names| :: names[i] != names[j]
    ensures ChildToInt(Element(tag, NumberElements(names, values)), names[k]) == values[k]
  {
    var n := Element(tag, NumberElements(names, values));
    forall j | 0 <= j < k
      ensures !Named(Children(n)[j], names[k])
    {
      NumberElementAt(names, values, j);
    }
    NumberElementAt(names, values, k);
    IntElementValue(names[k], values[k]);
    SelectSingleAt(n, names[k], k);
  }

  /** A written rectangle reads back field by field. */
  lemma SourceElementReads(r: Rect)
    requires IsInt32(r.x) && IsInt32(r.y) && IsInt32(r.width) && IsInt32(r.height)
    ensures var source := SourceElement(r);
      && ChildToInt(source, "X") == r.x && ChildToInt(source, "Y") == r.y
      && ChildToInt(source, "Width") == r.width && ChildToInt(source, "Height") == r.height
  {
    var values := [r.x, r.y, r.width, r.height];
    RectNamesDistinct();
    NumberElementReads("Source", RectNames, values, 0);
    NumberElementReads("Source", RectNames, values, 1);
    NumberElementReads("Source", RectNames, values, 2);
    NumberElementReads("Source", RectNames, values, 3);
  }

  /** Written indices read back in order. */
  lemma IndicesElementReads(indices: seq<int>)
    requires forall j | 0 <= j < |indices| :: IsInt32(indices[j])
    ensures ParsedInts(Children(IndicesElement(indices))) == indices
  {
    var ns := Children(IndicesElement(indices));
    forall j | 0 <= j < |ns|
      ensures Named(ns[j], "int") && TextValue(ns[j]) == Some(indices[j])
    {
      IntElementValue("int", indices[j]);
    }
    ParsedIntsKeepsAll(ns);
  }

  /** A written tile reads back as the record it was written from. */
  lemma TileElementReads(t: TileRecord)
    requires RecordWritable(t)
    ensures XmlEntry(TileElement(t)) == Ok(EntryOf(t))
  {
    var tile := TileElement(t);
    assert |"Indices"| != |"Source"|;
    SelectSingleAt(tile, "Source", 0);
    SelectSingleAt(tile, "Indices", 1);
    SourceElementReads(t.source);
    IndicesElementReads(t.indices);
  }

  /** The written bits read back as the dictionary the JSON writer produces. */
  lemma {:induction false} XmlBitsRead(acc: map<string, Json>, names: seq<string>, keys: seq<string>, values: seq<int>)
    requires |names| == |keys| == |values|
    requires forall i | 0 <= i < |names| :: LowerFirst(names[i]) == Some(keys[i]) && IsInt32(values[i])
    ensures BitsData(acc, NumberElements(names, values)) == Ok(KeyedNumbers(acc, keys, values))
    decreases |names|
  {
    if names != [] {
      var ns := NumberElements(names, values);
      var next := acc[keys[0] := JNumber(values[0])];
      assert ns[0] == IntElement(names[0], values[0]);
      assert ns[1..] == NumberElements(names[1..], values[1..]);
      assert TextValue(ns[0]) == Some(values[0]) by {
        IntElementValue(names[0], values[0]);
      }
      assert BitsData(acc, ns) == BitsData(next, ns[1..]);
      forall i | 0 <= i < |names| - 1
        ensures LowerFirst(names[1..][i]) == Some(keys[1..][i]) && IsInt32(values[1..][i])
      {
        assert names[1..][i] == names[i + 1] && keys[1..][i] == keys[i + 1] && values[1..][i] == values[i + 1];
      }
      XmlBitsRead(next, names[1..], keys[1..], values[1..]);
    }
  }

  /** Written tiles read back as the records the JSON writer writes. */
  lemma XmlTilesRead(tiles: seq<TileRecord>)
    requires forall i | 0 <= i < |tiles| :: RecordWritable(tiles[i])
    ensures ReadXmlTiles(TileElements(tiles)) == Ok(TilesJson(tiles))
  {
    var ns := TileElements(tiles);
    forall i | 0 <= i < |ns|
      ensures ReadXmlTile(ns[i]) == Ok(TileJson(EntryOf(tiles[i])))
    {
      TileElementReads(tiles[i]);
    }
    assert ReadXmlTiles(ns).value == TilesJson(tiles);
  }

  /** The `<Bits>` section of a written document reads as the JSON writer's `bits`. */
  lemma BitsSectionReads(m: Manifest)
    requires Writable(m)
    ensures BitsData(map[], Children(ManifestToXml(m).children[1])) == Ok(KeyedNumbers(map[], BitKeys, m.bits))
  {
    BitNamesLowerFirst();
    XmlBitsRead(map[], BitNames, BitKeys, m.bits);
  }

  /** The `<Tiles>` section of a written document reads as the JSON writer's `tiles`. */
  lemma TilesSectionReads(m: Manifest)
    requires Writable(m)
    ensures ReadXmlTiles(Children(ManifestToXml(m).children[2])) == Ok(TilesJson(m.tiles))
  {
    assert Children(ManifestToXml(m).children[2]) == TileElements(m.tiles);
    XmlTilesRead(m.tiles);
  }

  /** What the XML writer writes, the XML reader reads back as exactly the dictionary the
      JSON writer produces: the two manifest formats load the same tileset. */
  lemma XmlRoundTrip(m: Manifest)
    requires Writable(m)
    ensures FromXml(ManifestToXml(m)) == Ok(ManifestToJson(m))
  {
    var root := ManifestToXml(m);
    assert InnerText(root.children[0]) == m.image;
    BitsSectionReads(m);
    TilesSectionReads(m);
    FromXmlOf(root, root.children[0], root.children[1], root.children[2], KeyedNumbers(map[], BitKeys, m.bits),
      TilesJson(m.tiles));
  }
}
