/** Deserialized JSON as the tileset loader receives it (`Dictionary<string, dynamic>`), and
    the `dynamic` operations the loader applies to it: member access and the implicit and
    explicit conversions to `int`. */
module JsonValues {
  import opened Results
  import opened Numbers

  /** A JSON value. Numbers are integers: the manifest holds no other kind. */
  datatype Json =
    | JNull
    | JBool(b: bool)
    | JNumber(n: int)
    | JString(s: string)
    | JArray(items: seq<Json>)
    | JObject(fields: map<string, Json>)

  /** `value[key]`: defined on an object holding the key; anything else throws. */
  function Member(j: Json, key: string): (r: Option<Json>)
    ensures r.Some? <==> j.JObject? && key in j.fields
    ensures r.Some? ==> r.value == j.fields[key]
  {
    if j.JObject? && key in j.fields then Some(j.fields[key]) else None
  }

  /** Using a deserialized value where an `int` is expected. The deserializer produces an
      `int` for an integer in range and a wider type otherwise, and only the `int` converts
      implicitly. */
  function ImplicitInt(j: Json): (r: Option<int>)
    ensures r.Some? <==> j.JNumber? && IsInt32(j.n)
    ensures r.Some? ==> r.value == j.n
  {
    if j.JNumber? && IsInt32(j.n) then Some(j.n) else None
  }

  /** The largest magnitude a `decimal` holds, 2^96 - 1. */
  const DecimalMax: int := 0xFFFF_FFFF_FFFF_FFFF_FFFF_FFFF

  /** `JavaScriptSerializer` stores an integer literal as the first of `int`, `long`, `decimal`
      and `double` that holds it. These are the literals too wide for a `decimal`, which it
      stores as a `double`. */
  predicate IsDoubleLiteral(n: int) {
    n < -DecimalMax || DecimalMax < n
  }

  /** The unchecked conversion `(int)` of a `double` outside the `int` range. C# leaves its
      result unspecified, so the model leaves it open: some `int` for each literal. */
  const DoubleToInt: int -> Int32

  /** The explicit cast `(int)value`. An `int` stays as it is and a `long` is narrowed by the
      unchecked cast. A `decimal` outside the `int` range throws. A `double` converts without
      throwing, to an unspecified `int`. Anything that is not a number throws. */
  function CastInt(j: Json): (r: Option<int>)
    ensures r.Some? <==> j.JNumber? && (IsInt64(j.n) || IsDoubleLiteral(j.n))
    ensures r.Some? ==> IsInt32(r.value)
    ensures r.Some? && IsInt64(j.n) ==> (j.n - r.value) % TwoTo32 == 0
    ensures r.Some? && IsInt32(j.n) ==> r.value == j.n
  {
    if !j.JNumber? then None
    else if IsInt64(j.n) then Some(Wrap32(j.n))
    else if IsDoubleLiteral(j.n) then Some(DoubleToInt(j.n))
    else None
  }

  /** The three bands of wide literals: 2^63 is a `decimal` and its cast throws; 10^29 is
      beyond a `decimal`, so it is a `double` and its cast succeeds; 2^32 is a `long` and
      narrows to 0. */
  lemma WideLiteralCasts()
    ensures CastInt(JNumber(0x8000_0000_0000_0000)) == None
    ensures CastInt(JNumber(100_000_000_000_000_000_000_000_000_000)).Some?
    ensures CastInt(JNumber(0x1_0000_0000)) == Some(0)
  {
    assert IsDoubleLiteral(100_000_000_000_000_000_000_000_000_000);
  }
}
