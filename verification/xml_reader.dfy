/** Reading an XML manifest (Blobator/BlobTileset.Xml.cs): `FromXmlString` walks a parsed
    document and builds the same dictionary the JSON constructor takes. The document comes
    in already parsed, as a tree of elements and text; the dictionary is a `Json` object. */
module XmlReader {
  import opened Results
  import opened Numbers
  import opened JsonValues
  import opened Tilesets

  /** A node of a parsed document: an element with its children, or a run of text. */
  datatype XmlNode =
    | Element(name: string, children: seq<XmlNode>)
    | Text(value: string)

  /** Why reading throws: a missing element, or a `Bits` child whose name has no first
      letter to lower-case. */
  datatype XmlError =
    | NoTilesetRoot
    | NoImage
    | NoBits
    | NoTiles
    | EmptyName
    | TileWithoutSource
    | TileWithoutIndices

  /** `XmlNode.LocalName`: an element's name; text nodes are called `#text`. */
  function LocalName(n: XmlNode): (name: string)
    ensures n.Text? ==> name == "#text"
    ensures n.Element? ==> name == n.name
  {
    match n
    case Element(name, _) => name
    case Text(_) => "#text"
  }

  /** `XmlNode.InnerText`: the text of a node and all its descendants, in document order. */
  function InnerText(n: XmlNode): (s: string)
    ensures n.Text? ==> s == n.value
  {
    match n
    case Text(v) => v
    case Element(_, children) => InnerTexts(children)
  }

  /** The inner texts of a list of nodes, concatenated. */
  function InnerTexts(ns: seq<XmlNode>): (s: string)
    ensures |ns| == 1 ==> s == InnerText(ns[0])
  {
    if ns == [] then "" else InnerText(ns[0]) + InnerTexts(ns[1..])
  }

  /** The children of a node; text has none. */
  function Children(n: XmlNode): seq<XmlNode> {
    if n.Element? then n.children else []
  }

  predicate Named(n: XmlNode, name: string) {
    n.Element? && n.name == name
  }

  /** The first node of `ns` that is an element called `name`. */
  function FirstNamed(ns: seq<XmlNode>, name: string): (r: Option<nat>)
    ensures r.None? <==> forall i | 0 <= i < |ns| :: !Named(ns[i], name)
    ensures r.Some? ==>
      && r.value < |ns| && Named(ns[r.value], name)
      && forall i | 0 <= i < r.value :: !Named(ns[i], name)
  {
    if ns == [] then None
    else if Named(ns[0], name) then Some(0)
    else match FirstNamed(ns[1..], name)
      case None => None
      case Some(i) => Some(i + 1)
  }

  /** `SelectSingleNode(name)` with a plain name: the first child element called `name`. */
  function SelectSingle(n: XmlNode, name: string): (r: Option<XmlNode>)
    ensures r.None? <==> forall i | 0 <= i < |Children(n)| :: !Named(Children(n)[i], name)
    ensures r.Some? ==> Named(r.value, name) && r.value in Children(n)
  {
    match FirstNamed(Children(n), name)
    case None => None
    case Some(i) => Some(Children(n)[i])
  }

  /** The first child called `name` is the one at `i` when none before it is. */
  lemma SelectSingleAt(n: XmlNode, name: string, i: nat)
    requires i < |Children(n)| && Named(Children(n)[i], name)
    requires forall j | 0 <= j < i :: !Named(Children(n)[j], name)
    ensures SelectSingle(n, name) == Some(Children(n)[i])
  {
    var k := FirstNamed(Children(n), name);
    assert k.Some? && k.value <= i;
  }

  /** `DeserializeXmlChildToInt`: the text of the first child called `name`, parsed as an
      `int`; 0 when there is no such child or its text does not parse. */
  function ChildToInt(parent: XmlNode, name: string): (v: int)
    ensures IsInt32(v)
    ensures SelectSingle(parent, name).None? ==> v == 0
    ensures SelectSingle(parent, name).Some? ==> v == TextValue(SelectSingle(parent, name).value).GetOr(0)
  {
    match SelectSingle(parent, name)
    case None => 0
    case Some(child) => TextValue(child).GetOr(0)
  }

  /** The `Indices` loop: the values of the child elements called `int` whose text parses,
      in document order; everything else is skipped. */
  function ParsedInts(ns: seq<XmlNode>): (r: seq<int>)
    ensures |r| <= |ns|
    ensures forall i | 0 <= i < |r| :: IsInt32(r[i])
  {
    Present(seq(|ns|, i requires 0 <= i < |ns| => if Named(ns[i], "int") then TextValue(ns[i]) else None))
  }

  /** The text of a node read as an `int`, as `Int32.TryParse` reads it. */
  function TextValue(n: XmlNode): (r: Option<int>)
    ensures r.Some? ==> IsInt32(r.value)
  {
    ParseInt32(InnerText(n))
  }

  /** The values that are present, in order. */
  function Present(vs: seq<Option<int>>): (r: seq<int>)
    ensures |r| <= |vs|
    ensures (forall i | 0 <= i < |vs| :: vs[i].Some? ==> IsInt32(vs[i].value)) ==> forall i | 0 <= i < |r| :: IsInt32(r[i])
  {
    if vs == [] then []
    else if vs[0].Some? then [vs[0].value] + Present(vs[1..])
    else Present(vs[1..])
  }

  /** When every value is present, none is dropped. */
  lemma {:induction false} PresentKeepsAll(vs: seq<Option<int>>)
    requires forall i | 0 <= i < |vs| :: vs[i].Some?
    ensures |Present(vs)| == |vs|
    ensures forall i | 0 <= i < |vs| :: Present(vs)[i] == vs[i].value
  {
    if vs != [] {
      PresentKeepsAll(vs[1..]);
    }
  }

  /** When every child is an `int` element holding a number, nothing is skipped. */
  lemma ParsedIntsKeepsAll(ns: seq<XmlNode>)
    requires forall i | 0 <= i < |ns| :: Named(ns[i], "int") && TextValue(ns[i]).Some?
    ensures |ParsedInts(ns)| == |ns|
    ensures forall i | 0 <= i < |ns| :: ParsedInts(ns)[i] == TextValue(ns[i]).value
  {
    PresentKeepsAll(seq(|ns|, i requires 0 <= i < |ns| => if Named(ns[i], "int") then TextValue(ns[i]) else None));
  }

  /** The lower-case form of an ASCII capital; other characters are kept. */
  function LowerChar(c: char): (d: char)
    ensures 'A' <= c <= 'Z' ==> 'a' <= d <= 'z' && d as int - c as int == 'a' as int - 'A' as int
    ensures !('A' <= c <= 'Z') ==> d == c
  {
    if 'A' <= c <= 'Z' then (c as int - 'A' as int + 'a' as int) as char else c
  }

  /** `name.Substring(0, 1).ToLowerInvariant() + name.Substring(1)`; `Substring(0, 1)`
      throws on an empty name. */
  function LowerFirst(name: string): (r: Option<string>)
    ensures r.None? <==> name == []
    ensures r.Some? ==> |r.value| == |name| && r.value[0] == LowerChar(name[0]) && r.value[1..] == name[1..]
  {
    if name == [] then None else Some([LowerChar(name[0])] + name[1..])
  }

  /** The `Bits` loop from a dictionary `acc`: each child's lower-first name gets its parsed
      text, later children overwriting earlier ones; a child whose text does not parse is
      skipped, and a child with an empty name throws. */
  function BitsData(acc: map<string, Json>, ns: seq<XmlNode>): (r: Result<map<string, Json>, XmlError>)
    ensures r.Err? <==> exists i | 0 <= i < |ns| :: LocalName(ns[i]) == []
    ensures r.Err? ==> r.error == EmptyName
    decreases |ns|
  {
    if ns == [] then Ok(acc)
    else
      match LowerFirst(LocalName(ns[0]))
      case None => Err(EmptyName)
      case Some(key) =>
        var next := match TextValue(ns[0])
          case Some(v) => acc[key := JNumber(v)]
          case None => acc;
        BitsData(next, ns[1..])
  }

  /** The value the last child of `ns` called `key` (after lower-casing) gives, if any
      such child's text parses. */
  function LastBit(ns: seq<XmlNode>, key: string): (r: Option<int>)
    ensures r.Some? ==> IsInt32(r.value)
    decreases |ns|
  {
    if ns == [] then None
    else match LastBit(ns[1..], key)
      case Some(v) => Some(v)
      case None =>
        if LowerFirst(LocalName(ns[0])) == Some(key) && TextValue(ns[0]).Some?
        then TextValue(ns[0])
        else None
  }

  /** A key of the `bits` dictionary holds the value of the last child that names it, or
      what it held before when no child does. */
  lemma {:induction false} BitsDataLastWins(acc: map<string, Json>, ns: seq<XmlNode>, key: string)
    requires BitsData(acc, ns).Ok?
    ensures var r := BitsData(acc, ns).value;
      && (key in r <==> key in acc || LastBit(ns, key).Some?)
      && (LastBit(ns, key).Some? ==> r[key] == JNumber(LastBit(ns, key).value))
      && (LastBit(ns, key).None? && key in acc ==> r[key] == acc[key])
    decreases |ns|
  {
    if ns != [] {
      var name := LowerFirst(LocalName(ns[0])).value;
      var next := match TextValue(ns[0])
        case Some(v) => acc[name := JNumber(v)]
        case None => acc;
      assert BitsData(acc, ns) == BitsData(next, ns[1..]);
      BitsDataLastWins(next, ns[1..], key);
    }
  }

  /** `DeserializeXmlTile`: the record a tile element describes, with the `source`
      rectangle read field by field and the parsed `indices`. A node without a `Source` or an
      `Indices` child throws. */
  function XmlEntry(n: XmlNode): (r: Result<TileEntry, XmlError>)
    ensures SelectSingle(n, "Source").None? <==> r == Err(TileWithoutSource)
    ensures r == Err(TileWithoutIndices) <==> SelectSingle(n, "Source").Some? && SelectSingle(n, "Indices").None?
    ensures r.Ok? ==> r.value == XmlTileEntry(SelectSingle(n, "Source").value, SelectSingle(n, "Indices").value)
  {
    match SelectSingle(n, "Source")
    case None => Err(TileWithoutSource)
    case Some(source) =>
      match SelectSingle(n, "Indices")
      case None => Err(TileWithoutIndices)
      case Some(indices) => Ok(XmlTileEntry(source, indices))
  }

  /** The dictionary `DeserializeXmlTile` returns for a tile element, in the shape the JSON
      loader reads back unchanged. */
  function ReadXmlTile(n: XmlNode): (r: Result<Json, XmlError>)
    ensures r.Ok? <==> XmlEntry(n).Ok?
    ensures r.Err? ==> r.error == XmlEntry(n).error
    ensures r.Ok? ==> ReadTile(r.value) == Some(XmlEntry(n).value)
  {
    var e :- XmlEntry(n);
    Ok(TileJson(e))
  }

  /** The record a `Source` and an `Indices` element describe. */
  function XmlTileEntry(source: XmlNode, indices: XmlNode): (e: TileEntry)
    ensures IsInt32(e.x) && IsInt32(e.y) && IsInt32(e.width) && IsInt32(e.height)
    ensures forall i | 0 <= i < |e.indices| :: IsInt32(e.indices[i])
    ensures e.x == ChildToInt(source, "X") && e.y == ChildToInt(source, "Y")
    ensures e.width == ChildToInt(source, "Width") && e.height == ChildToInt(source, "Height")
    ensures e.indices == ParsedInts(Children(indices))
  {
    TileEntry(ChildToInt(source, "X"), ChildToInt(source, "Y"), ChildToInt(source, "Width"), ChildToInt(source, "Height"),
              ParsedInts(Children(indices)))
  }

  /** The position of the first failure among `rs`, if any. */
  function FirstErr<T, E>(rs: seq<Result<T, E>>): (r: Option<nat>)
    ensures r.None? <==> forall i | 0 <= i < |rs| :: rs[i].Ok?
    ensures r.Some? ==>
      && r.value < |rs| && rs[r.value].Err?
      && forall i | 0 <= i < r.value :: rs[i].Ok?
  {
    if rs == [] then None
    else if rs[0].Err? then Some(0)
    else match FirstErr(rs[1..])
      case None => None
      case Some(i) => Some(i + 1)
  }

  /** Every child read as a record. */
  function TileResults(ns: seq<XmlNode>): (rs: seq<Result<Json, XmlError>>)
    ensures |rs| == |ns| && forall i | 0 <= i < |ns| :: rs[i] == ReadXmlTile(ns[i])
  {
    seq(|ns|, i requires 0 <= i < |ns| => ReadXmlTile(ns[i]))
  }

  /** The `Tiles` loop: every child becomes a record, the first failure throwing. */
  function ReadXmlTiles(ns: seq<XmlNode>): (r: Result<seq<Json>, XmlError>)
    ensures r.Ok? <==> forall i | 0 <= i < |ns| :: ReadXmlTile(ns[i]).Ok?
    ensures r.Ok? ==> |r.value| == |ns| && forall i | 0 <= i < |ns| :: r.value[i] == ReadXmlTile(ns[i]).value
    ensures r.Err? ==> FirstErr(TileResults(ns)).Some?
    ensures r.Err? ==>
      var i := FirstErr(TileResults(ns)).value;
      && i < |ns| && ReadXmlTile(ns[i]) == Err(r.error)
      && forall j | 0 <= j < i :: ReadXmlTile(ns[j]).Ok?
  {
    var rs := TileResults(ns);
    match FirstErr(rs)
    case Some(i) => Err(rs[i].error)
    case None => Ok(seq(|ns|, i requires 0 <= i < |ns| => rs[i].value))
  }

  /** A required element: its absence throws `e`. */
  function Need(o: Option<XmlNode>, e: XmlError): (r: Result<XmlNode, XmlError>)
    ensures o.Some? ==> r == Ok(o.value)
    ensures o.None? ==> r == Err(e)
  {
    match o
    case Some(n) => Ok(n)
    case None => Err(e)
  }

  /** The dictionary `FromXmlString` returns: the image path, the bits and the records. */
  function Dictionary(image: string, bits: map<string, Json>, tiles: seq<Json>): (d: map<string, Json>)
    ensures d.Keys == {"image", "bits", "tiles"}
    ensures d["image"] == JString(image) && d["bits"] == JObject(bits) && d["tiles"] == JArray(tiles)
  {
    map["image" := JString(image), "bits" := JObject(bits), "tiles" := JArray(tiles)]
  }

  /** `FromXmlString` on a parsed document: the `Tileset` root, then `Image`, `Bits` and
      `Tiles` in that order, each throwing when absent. */
  function FromXml(root: XmlNode): (r: Result<map<string, Json>, XmlError>)
    ensures r.Ok? ==> Named(root, "Tileset") && r.value.Keys == {"image", "bits", "tiles"}
  {
    if !Named(root, "Tileset") then Err(NoTilesetRoot)
    else
      var image :- Need(SelectSingle(root, "Image"), NoImage);
      var bits :- Need(SelectSingle(root, "Bits"), NoBits);
      var bitsData :- BitsData(map[], Children(bits));
      var tiles :- Need(SelectSingle(root, "Tiles"), NoTiles);
      var records :- ReadXmlTiles(Children(tiles));
      Ok(Dictionary(InnerText(image), bitsData, records))
  }

  /** The checks come in the source's order: root, `Image`, `Bits` (and its children's
      names), `Tiles`, then each tile. */
  lemma FromXmlErrors(root: XmlNode)
    ensures var r := FromXml(root);
      var image, bits, tiles := SelectSingle(root, "Image"), SelectSingle(root, "Bits"), SelectSingle(root, "Tiles");
      && (r == Err(NoTilesetRoot) <==> !Named(root, "Tileset"))
      && (r == Err(NoImage) <==> Named(root, "Tileset") && image.None?)
      && (r == Err(NoBits) <==> Named(root, "Tileset") && image.Some? && bits.None?)
      && (r == Err(EmptyName) <==>
           Named(root, "Tileset") && image.Some? && bits.Some? && BitsData(map[], Children(bits.value)).Err?)
      && (r == Err(NoTiles) <==>
           && Named(root, "Tileset") && image.Some? && bits.Some?
           && BitsData(map[], Children(bits.value)).Ok? && tiles.None?)
      && (r.Ok? <==>
           && Named(root, "Tileset") && image.Some? && bits.Some? && tiles.Some?
           && BitsData(map[], Children(bits.value)).Ok? && ReadXmlTiles(Children(tiles.value)).Ok?)
  {
    var r := FromXml(root);
    var image, bits, tiles := SelectSingle(root, "Image"), SelectSingle(root, "Bits"), SelectSingle(root, "Tiles");
    if Named(root, "Tileset") && image.Some? && bits.Some? && BitsData(map[], Children(bits.value)).Ok? && tiles.Some?
      && ReadXmlTiles(Children(tiles.value)).Err?
    {
      var i := FirstErr(TileResults(Children(tiles.value))).value;
      assert r.error == ReadXmlTile(Children(tiles.value)[i]).error;
    }
  }

  /** A read document is the dictionary of its three sections. */
  lemma FromXmlValue(root: XmlNode)
    requires FromXml(root).Ok?
    ensures SelectSingle(root, "Image").Some? && SelectSingle(root, "Bits").Some? && SelectSingle(root, "Tiles").Some?
    ensures BitsData(map[], Children(SelectSingle(root, "Bits").value)).Ok?
    ensures ReadXmlTiles(Children(SelectSingle(root, "Tiles").value)).Ok?
    ensures FromXml(root).value == Dictionary(
      InnerText(SelectSingle(root, "Image").value),
      BitsData(map[], Children(SelectSingle(root, "Bits").value)).value,
      ReadXmlTiles(Children(SelectSingle(root, "Tiles").value)).value)
  {
  }

  /** A document whose three sections read reads as their dictionary. */
  lemma FromXmlOf(root: XmlNode, image: XmlNode, bits: XmlNode, tiles: XmlNode,
                  bitsData: map<string, Json>, records: seq<Json>)
    requires Named(root, "Tileset")
    requires SelectSingle(root, "Image") == Some(image)
    requires SelectSingle(root, "Bits") == Some(bits) && BitsData(map[], Children(bits)) == Ok(bitsData)
    requires SelectSingle(root, "Tiles") == Some(tiles) && ReadXmlTiles(Children(tiles)) == Ok(records)
    ensures FromXml(root) == Ok(Dictionary(InnerText(image), bitsData, records))
  {
  }

  /** Tile elements that read as JSON records load as the entries they describe. */
  lemma TilesSectionLoads(children: seq<XmlNode>)
    requires ReadXmlTiles(children).Ok?
    ensures var entries := ReadTiles(JArray(ReadXmlTiles(children).value));
      && entries.Ok? && |entries.value| == |children|
      && forall i | 0 <= i < |children| :: XmlEntry(children[i]) == Ok(entries.value[i])
  {
    var records := ReadXmlTiles(children).value;
    forall i | 0 <= i < |children|
      ensures ReadTile(records[i]) == Some(XmlEntry(children[i]).value)
    {
      assert records[i] == ReadXmlTile(children[i]).value;
    }
  }

  /** The records of a read document, as the JSON loader reads them back: one per child of
      `Tiles`, each with the fields its `Source` and `Indices` give. */
  lemma XmlTilesLoad(root: XmlNode)
    requires FromXml(root).Ok?
    ensures var children := Children(SelectSingle(root, "Tiles").value);
      var entries := ReadTiles(FromXml(root).value["tiles"]);
      && entries.Ok? && |entries.value| == |children|
      && forall i | 0 <= i < |children| :: XmlEntry(children[i]) == Ok(entries.value[i])
  {
    FromXmlValue(root);
    TilesSectionLoads(Children(SelectSingle(root, "Tiles").value));
  }

  /** The bits of a read document: the loader accepts them exactly when each of the eight
      keys is named by some child of `Bits` holding a number, and then bit `k` is the number
      in the last such child. */
  lemma XmlBitsLoad(root: XmlNode)
    requires FromXml(root).Ok?
    ensures var children := Children(SelectSingle(root, "Bits").value);
      var bits := ReadBits(FromXml(root).value["bits"]);
      && (bits.Ok? <==> forall k | 0 <= k < 8 :: LastBit(children, BitKeys[k]).Some?)
      && (bits.Ok? ==> forall k | 0 <= k < 8 :: bits.value[k] == LastBit(children, BitKeys[k]).value)
  {
    FromXmlValue(root);
    var children := Children(SelectSingle(root, "Bits").value);
    var data := BitsData(map[], children).value;
    var section := FromXml(root).value["bits"];
    forall k | 0 <= k < 8
      ensures ReadBit(section, k).Some? <==> LastBit(children, BitKeys[k]).Some?
      ensures ReadBit(section, k).Some? ==> ReadBit(section, k).value == LastBit(children, BitKeys[k]).value
    {
      BitsDataLastWins(map[], children, BitKeys[k]);
    }
  }

  /** A read document loads unless its bits are incomplete: image and tiles never fail. */
  lemma XmlLoads<TImage, TRegion>(root: XmlNode, loadImage: string -> TImage,
                                  loadRegion: (TImage, int, int, int, int) -> TRegion)
    requires FromXml(root).Ok?
    ensures var json := FromXml(root).value;
      && (Load(json, loadImage, loadRegion).Ok? <==> ReadBits(json["bits"]).Ok?)
      && (Load(json, loadImage, loadRegion).Err? ==> Load(json, loadImage, loadRegion).error == BadBits)
  {
    FromXmlValue(root);
    XmlTilesLoad(root);
  }
}
