/** The eight-bit neighbour mask, its canonical form, and the sets `GetSets` builds from the
    256 raw masks (Blobator/Generator.cs). */
module Masks {

  /** Which of the eight neighbouring cells hold the same terrain, one bit per direction. */
  type Mask = bv8

  /** The eight compass neighbours, in the order of the `TileBits` flags. */
  datatype Direction = TopLeft | Top | TopRight | Right | BottomRight | Bottom | BottomLeft | Left {

    /** The `TileBits` flag of this direction. */
    function Weight(): Mask {
      match this
      case TopLeft => 1
      case Top => 2
      case TopRight => 4
      case Right => 8
      case BottomRight => 16
      case Bottom => 32
      case BottomLeft => 64
      case Left => 128
    }

    /** Position of this direction in a list of bit weights. */
    function Index(): nat {
      match this
      case TopLeft => 0
      case Top => 1
      case TopRight => 2
      case Right => 3
      case BottomRight => 4
      case Bottom => 5
      case BottomLeft => 6
      case Left => 7
    }
  }

  /** The directions in bit order, TopLeft first. */
  const Directions: seq<Direction> := [TopLeft, Top, TopRight, Right, BottomRight, Bottom, BottomLeft, Left]

  /** The flag of each direction as a plain integer, in `Directions` order: the bits a
      fresh tileset starts with and the `bits` section of a generated manifest. */
  const DefaultBits: seq<int> := [1, 2, 4, 8, 16, 32, 64, 128]

  /** The default bits are the direction flags, bit `k` for the `k`-th direction. */
  lemma DefaultBitsAreWeights()
    ensures |DefaultBits| == |Directions| == 8
    ensures forall k | 0 <= k < 8 ::
      DefaultBits[k] == Directions[k].Weight() as int && Directions[k].Index() == k
  {
  }

  predicate Has(m: Mask, d: Direction) {
    m & d.Weight() == d.Weight()
  }

  /** The four corners of a tile; each is also one quadrant of the composed tile. */
  datatype Corner = TopLeftCorner | TopRightCorner | BottomLeftCorner | BottomRightCorner {

    /** The diagonal neighbour that touches this corner. */
    function Diagonal(): Direction {
      match this
      case TopLeftCorner => TopLeft
      case TopRightCorner => TopRight
      case BottomLeftCorner => BottomLeft
      case BottomRightCorner => BottomRight
    }

    /** The edge neighbour above or below this corner. */
    function Vertical(): Direction {
      match this
      case TopLeftCorner => Top
      case TopRightCorner => Top
      case BottomLeftCorner => Bottom
      case BottomRightCorner => Bottom
    }

    /** The edge neighbour beside this corner. */
    function Horizontal(): Direction {
      match this
      case TopLeftCorner => Left
      case TopRightCorner => Right
      case BottomLeftCorner => Left
      case BottomRightCorner => Right
    }
  }

  /** Both edge neighbours adjacent to corner `q` are present in `m`. */
  predicate Supported(m: Mask, q: Corner) {
    Has(m, q.Vertical()) && Has(m, q.Horizontal())
  }

  /** The diagonal bit of corner `q` is set only if both adjacent edge bits are. */
  predicate CornerConsistent(m: Mask, q: Corner) {
    Has(m, q.Diagonal()) ==> Supported(m, q)
  }

  /** A canonical mask sets a diagonal bit only when both adjacent edge bits are set. */
  predicate IsCanonical(m: Mask) {
    && (Has(m, TopLeft) ==> Has(m, Top) && Has(m, Left))
    && (Has(m, TopRight) ==> Has(m, Top) && Has(m, Right))
    && (Has(m, BottomLeft) ==> Has(m, Bottom) && Has(m, Left))
    && (Has(m, BottomRight) ==> Has(m, Bottom) && Has(m, Right))
  }

  /** The four-corner definition above says the same as a quantifier over all corners. */
  lemma IsCanonicalForAllCorners(m: Mask)
    ensures IsCanonical(m) <==> forall q: Corner :: CornerConsistent(m, q)
  {
    if IsCanonical(m) {
      forall q: Corner
        ensures CornerConsistent(m, q)
      {
        match q
        case TopLeftCorner =>
        case TopRightCorner =>
        case BottomLeftCorner =>
        case BottomRightCorner =>
      }
    } else {
      assert || !CornerConsistent(m, TopLeftCorner)
             || !CornerConsistent(m, TopRightCorner)
             || !CornerConsistent(m, BottomLeftCorner)
             || !CornerConsistent(m, BottomRightCorner);
    }
  }

  /** Every bit of `a` is set in `b`. */
  predicate Submask(a: Mask, b: Mask) {
    a & b == a
  }

  /** The four edge (cardinal) bits: Top, Right, Bottom and Left. */
  const CardinalBits: Mask := 170

  /** The canonical representative of a raw mask: each diagonal bit whose two adjacent edge
      bits are not both set is cleared; nothing else changes. */
  function Canonicalize(m: Mask): (c: Mask)
    ensures IsCanonical(c)
    ensures Submask(c, m)
    ensures c & CardinalBits == m & CardinalBits
    ensures c == m <==> IsCanonical(m)
    ensures c <= m
  {
    var top := Has(m, Top);
    var right := Has(m, Right);
    var bottom := Has(m, Bottom);
    var left := Has(m, Left);
    var c1 := if !(top && left) then m & !TopLeft.Weight() else m;
    var c2 := if !(top && right) then c1 & !TopRight.Weight() else c1;
    var c3 := if !(bottom && left) then c2 & !BottomLeft.Weight() else c2;
    if !(bottom && right) then c3 & !BottomRight.Weight() else c3
  }

  /** The canonical form is the largest canonical submask of the raw mask. */
  lemma CanonicalizeIsGreatest(m: Mask, s: Mask)
    requires IsCanonical(s) && Submask(s, m)
    ensures Submask(s, Canonicalize(m))
  {
  }

  lemma CanonicalizeIdempotent(m: Mask)
    ensures Canonicalize(Canonicalize(m)) == Canonicalize(m)
  {
  }

  /** The number of canonical masks strictly below `m`: an explicit enumeration of the 47
      canonical masks in ascending order, checked against the rule by `CanonicalRankStep`. */
  function CanonicalRank(m: Mask): (r: nat)
    ensures r <= 46
  {
    if m <= 0 then 0 else
    if m <= 2 then 1 else
    if m <= 8 then 2 else
    if m <= 10 then 3 else
    if m <= 14 then 4 else
    if m <= 32 then 5 else
    if m <= 34 then 6 else
    if m <= 40 then 7 else
    if m <= 42 then 8 else
    if m <= 46 then 9 else
    if m <= 56 then 10 else
    if m <= 58 then 11 else
    if m <= 62 then 12 else
    if m <= 128 then 13 else
    if m <= 130 then 14 else
    if m <= 131 then 15 else
    if m <= 136 then 16 else
    if m <= 138 then 17 else
    if m <= 139 then 18 else
    if m <= 142 then 19 else
    if m <= 143 then 20 else
    if m <= 160 then 21 else
    if m <= 162 then 22 else
    if m <= 163 then 23 else
    if m <= 168 then 24 else
    if m <= 170 then 25 else
    if m <= 171 then 26 else
    if m <= 174 then 27 else
    if m <= 175 then 28 else
    if m <= 184 then 29 else
    if m <= 186 then 30 else
    if m <= 187 then 31 else
    if m <= 190 then 32 else
    if m <= 191 then 33 else
    if m <= 224 then 34 else
    if m <= 226 then 35 else
    if m <= 227 then 36 else
    if m <= 232 then 37 else
    if m <= 234 then 38 else
    if m <= 235 then 39 else
    if m <= 238 then 40 else
    if m <= 239 then 41 else
    if m <= 248 then 42 else
    if m <= 250 then 43 else
    if m <= 251 then 44 else
    if m <= 254 then 45 else
    46
  }

  lemma CanonicalRankStep(m: Mask)
    requires m < 255
    ensures CanonicalRank(m + 1) == CanonicalRank(m) + (if IsCanonical(m) then 1 else 0)
  {
  }

  /** A position in the pass over the raw masks: 0..256 needs nine bits. */
  type Counter = bv16

  /** The raw mask visited at position `i` of the pass. */
  function MaskAt(i: Counter): (m: Mask)
    requires i < 256
    ensures m as Counter == i
  {
    i as bv8
  }

  predicate StrictlyAscending(s: seq<Mask>) {
    forall i, j | 0 <= i < j < |s| :: s[i] < s[j]
  }

  /** The masks below `n` that satisfy `p`, in ascending order: what one pass over the raw
      masks 0..n-1 collects. */
  function Collect(n: Counter, p: Mask -> bool): seq<Mask>
    requires n <= 256
    decreases n
  {
    if n == 0 then []
    else Collect(n - 1, p) + (if p(MaskAt(n - 1)) then [MaskAt(n - 1)] else [])
  }

  lemma {:induction false} CollectBounded(n: Counter, p: Mask -> bool)
    requires n <= 256
    ensures forall k | 0 <= k < |Collect(n, p)| :: Collect(n, p)[k] as Counter < n
    decreases n
  {
    if n > 0 {
      CollectBounded(n - 1, p);
    }
  }

  lemma {:induction false} CollectAscending(n: Counter, p: Mask -> bool)
    requires n <= 256
    ensures StrictlyAscending(Collect(n, p))
    decreases n
  {
    if n > 0 {
      var prefix := Collect(n - 1, p);
      CollectAscending(n - 1, p);
      CollectBounded(n - 1, p);
      if p(MaskAt(n - 1)) {
        var s := prefix + [MaskAt(n - 1)];
        forall i, j | 0 <= i < j < |s| ensures s[i] < s[j] {
          if j == |prefix| {
            assert s[i] as Counter < n - 1;
          }
        }
      }
    }
  }

  lemma {:induction false} CollectMembers(n: Counter, p: Mask -> bool, m: Mask)
    requires n <= 256
    ensures m in Collect(n, p) <==> m as Counter < n && p(m)
    decreases n
  {
    if n > 0 {
      CollectMembers(n - 1, p, m);
    }
  }

  lemma CollectFacts(n: Counter, p: Mask -> bool)
    requires n <= 256
    ensures StrictlyAscending(Collect(n, p))
    ensures forall k | 0 <= k < |Collect(n, p)| :: Collect(n, p)[k] as Counter < n
    ensures forall m: Mask :: m in Collect(n, p) <==> m as Counter < n && p(m)
  {
    CollectAscending(n, p);
    CollectBounded(n, p);
    forall m: Mask
      ensures m in Collect(n, p) <==> m as Counter < n && p(m)
    {
      CollectMembers(n, p, m);
    }
  }

  /** The canonical masks below `n` in ascending order. */
  function CanonicalBelow(n: Counter): seq<Mask>
    requires n <= 256
  {
    Collect(n, IsCanonical)
  }

  lemma {:induction false} CanonicalBelowLength(n: Counter)
    requires n <= 256
    ensures |CanonicalBelow(n)| == if n == 256 then 47 else CanonicalRank(MaskAt(n))
    decreases n
  {
    if n > 0 {
      CanonicalBelowLength(n - 1);
      if n < 256 {
        CanonicalRankStep(MaskAt(n - 1));
      }
    }
  }

  /** A canonical mask sits at position `CanonicalRank(m)` of the ascending list. */
  lemma {:induction false} CanonicalBelowAt(n: Counter, m: Mask)
    requires n <= 256 && IsCanonical(m) && m as Counter < n
    ensures CanonicalRank(m) < |CanonicalBelow(n)| && CanonicalBelow(n)[CanonicalRank(m)] == m
    decreases n
  {
    CanonicalBelowLength(n - 1);
    if m as Counter != n - 1 {
      CanonicalBelowAt(n - 1, m);
    }
  }

  /** The 47 canonical masks in ascending order; the atlas holds one tile per entry. */
  function CanonicalMasks(): (s: seq<Mask>)
    ensures |s| == 47
    ensures StrictlyAscending(s)
    ensures forall m: Mask :: m in s <==> IsCanonical(m)
    ensures forall k | 0 <= k < |s| :: IsCanonical(s[k])
    ensures forall m: Mask | IsCanonical(m) :: CanonicalRank(m) < 47 && s[CanonicalRank(m)] == m
  {
    CanonicalBelowLength(256);
    CollectFacts(256, IsCanonical);
    CanonicalMasksAt();
    CanonicalBelow(256)
  }

  lemma CanonicalMasksAt()
    ensures forall m: Mask | IsCanonical(m) ::
      CanonicalRank(m) < |CanonicalBelow(256)| && CanonicalBelow(256)[CanonicalRank(m)] == m
  {
    forall m: Mask | IsCanonical(m)
      ensures CanonicalRank(m) < |CanonicalBelow(256)| && CanonicalBelow(256)[CanonicalRank(m)] == m
    {
      CanonicalBelowAt(256, m);
    }
  }

  /** Raw mask `r` is a key of `duplicates` with value `u`: a different mask with canonical
      form `u` (for canonical `u` this is exactly a non-canonical mask collapsing onto it). */
  predicate CollapsesOnto(u: Mask, r: Mask) {
    r != u && Canonicalize(r) == u
  }

  /** The predicate form of `CollapsesOnto`, for collecting. */
  function CollapsingOnto(u: Mask): Mask -> bool {
    r => CollapsesOnto(u, r)
  }

  /** The keys of `duplicates` whose value is `u`, ascending. */
  function DuplicatesOf(u: Mask): seq<Mask> {
    Collect(256, CollapsingOnto(u))
  }

  /** `DuplicatesOf(u)` holds the masks other than `u` with canonical form `u`, each once. */
  lemma DuplicatesOfFacts(u: Mask)
    ensures StrictlyAscending(DuplicatesOf(u))
    ensures forall r: Mask :: r in DuplicatesOf(u) <==> r != u && Canonicalize(r) == u
  {
    CollectAscending(256, CollapsingOnto(u));
    forall r: Mask ensures r in DuplicatesOf(u) <==> r != u && Canonicalize(r) == u {
      CollectMembers(256, CollapsingOnto(u), r);
      assert r as Counter < 256;
    }
  }

  /** The raw masks that `Generate` lists for the tile of canonical mask `u`: `u` itself,
      then every key of `duplicates` whose value is `u`, in ascending order. */
  function EquivalenceClass(u: Mask): (s: seq<Mask>)
    requires IsCanonical(u)
    ensures |s| > 0 && s[0] == u
    ensures forall r: Mask :: r in s <==> Canonicalize(r) == u
    ensures forall i, j | 0 <= i < j < |s| :: s[i] != s[j]
  {
    DuplicatesOfFacts(u);
    assert Canonicalize(u) == u;
    [u] + DuplicatesOf(u)
  }

  /** How a mask compares with the counter as it steps from `i` to `i + 1`. */
  lemma NextMask(m: Mask, i: Counter)
    requires i < 256
    ensures m as Counter < i + 1 <==> m as Counter < i || m == MaskAt(i)
    ensures m as Counter < i <==> m < MaskAt(i)
    ensures m as int == MaskAt(i) as int <==> m == MaskAt(i)
  {
  }

  /** A key function whose every value is a fixed point no larger than its argument. */
  ghost predicate Retraction(key: Mask -> Mask) {
    forall m: Mask :: key(m) <= m && key(key(m)) == key(m)
  }

  /** The masks a key function leaves unchanged. */
  function FixedBy(key: Mask -> Mask): Mask -> bool {
    m => key(m) == m
  }

  /** Two predicates that agree everywhere collect the same masks. */
  lemma {:induction false} CollectExtensional(n: Counter, p: Mask -> bool, q: Mask -> bool)
    requires n <= 256
    requires forall m: Mask :: p(m) == q(m)
    ensures Collect(n, p) == Collect(n, q)
    decreases n
  {
    if n > 0 {
      CollectExtensional(n - 1, p, q);
    }
  }

  /** After the raw masks below `i`: `d` maps exactly the masks the key moves to their keys. */
  ghost predicate DuplicatesBelow(d: map<int, Mask>, i: Counter, key: Mask -> Mask) {
    && (forall m: Mask :: m as int in d <==> m as Counter < i && key(m) != m)
    && (forall m: Mask | m as int in d :: d[m as int] == key(m))
    && (forall r | r in d :: 0 <= r < 256)
  }

  /** Recording mask `i` as a duplicate, seen from one mask `m`. */
  lemma DuplicateStepAt(key: Mask -> Mask, d: map<int, Mask>, i: Counter, m: Mask)
    requires i < 256 && DuplicatesBelow(d, i, key)
    requires key(MaskAt(i)) != MaskAt(i)
    ensures var d' := d[MaskAt(i) as int := key(MaskAt(i))];
      && (m as int in d' <==> m as Counter < i + 1 && key(m) != m)
      && (m as int in d' ==> d'[m as int] == key(m))
  {
    NextMask(m, i);
  }

  /** Recording mask `i` as a duplicate keeps the map exact. */
  lemma DuplicateStep(key: Mask -> Mask, d: map<int, Mask>, i: Counter)
    requires i < 256 && DuplicatesBelow(d, i, key)
    requires key(MaskAt(i)) != MaskAt(i)
    ensures DuplicatesBelow(d[MaskAt(i) as int := key(MaskAt(i))], i + 1, key)
  {
    forall m: Mask
      ensures var d' := d[MaskAt(i) as int := key(MaskAt(i))];
        && (m as int in d' <==> m as Counter < i + 1 && key(m) != m)
        && (m as int in d' ==> d'[m as int] == key(m))
    {
      DuplicateStepAt(key, d, i, m);
    }
  }

  /** A fixed point adds nothing to the map. */
  lemma UniqueStep(key: Mask -> Mask, d: map<int, Mask>, i: Counter)
    requires i < 256 && DuplicatesBelow(d, i, key)
    requires key(MaskAt(i)) == MaskAt(i)
    ensures DuplicatesBelow(d, i + 1, key)
  {
    forall m: Mask
      ensures m as int in d <==> m as Counter < i + 1 && key(m) != m
    {
      NextMask(m, i);
    }
  }

  /** The key of mask `i` was already collected exactly when the key moves mask `i`. */
  lemma SeenBefore(key: Mask -> Mask, i: Counter)
    requires i < 256 && Retraction(key)
    ensures key(MaskAt(i)) in Collect(i, FixedBy(key)) <==> key(MaskAt(i)) != MaskAt(i)
  {
    var raw := MaskAt(i);
    var index := key(raw);
    CollectMembers(i, FixedBy(key), index);
    assert index <= raw && key(index) == index;
    NextMask(index, i);
  }

  /** One more step of the counter appends at most mask `n`. */
  lemma CollectNext(n: Counter, p: Mask -> bool)
    requires n < 256
    ensures Collect(n + 1, p) == Collect(n, p) + (if p(MaskAt(n)) then [MaskAt(n)] else [])
  {
  }

  /** Every mask is below 256. */
  lemma DuplicatesAll(d: map<int, Mask>, key: Mask -> Mask)
    requires DuplicatesBelow(d, 256, key)
    ensures forall m: Mask :: m as int in d <==> key(m) != m
  {
    forall m: Mask ensures m as int in d <==> key(m) != m {
      assert m as Counter < 256;
    }
  }

  /** One iteration of the grouping loop keeps both loop invariants. */
  lemma GroupStep(key: Mask -> Mask, uniques: seq<Mask>, d: map<int, Mask>, i: Counter)
    requires i < 256 && Retraction(key)
    requires uniques == Collect(i, FixedBy(key)) && DuplicatesBelow(d, i, key)
    ensures var raw := MaskAt(i);
      if key(raw) in uniques then
        uniques == Collect(i + 1, FixedBy(key)) && DuplicatesBelow(d[raw as int := key(raw)], i + 1, key)
      else
        uniques + [key(raw)] == Collect(i + 1, FixedBy(key)) && DuplicatesBelow(d, i + 1, key)
  {
    SeenBefore(key, i);
    CollectNext(i, FixedBy(key));
    if key(MaskAt(i)) in uniques {
      DuplicateStep(key, d, i);
    } else {
      UniqueStep(key, d, i);
    }
  }

  /** The grouping loop of `GetSets`, for any retraction as the key: a key seen for the first
      time goes into `uniques` (in insertion order); otherwise the raw mask is recorded in
      `duplicates` against it. */
  method GroupByKey(key: Mask -> Mask) returns (uniques: seq<Mask>, duplicates: map<int, Mask>)
    requires Retraction(key)
    ensures uniques == Collect(256, FixedBy(key))
    ensures forall m: Mask :: m as int in duplicates <==> key(m) != m
    ensures forall m: Mask | m as int in duplicates :: duplicates[m as int] == key(m)
    ensures forall r | r in duplicates :: 0 <= r < 256
  {
    uniques := [];
    duplicates := map[];
    var i: Counter := 0;
    while i < 256
      invariant i <= 256 && uniques == Collect(i, FixedBy(key)) && DuplicatesBelow(duplicates, i, key)
      decreases 256 - i
    {
      var raw := MaskAt(i);
      var index := key(raw);
      GroupStep(key, uniques, duplicates, i);
      if index in uniques {
        duplicates := duplicates[raw as int := index];
      } else {
        uniques := uniques + [index];
      }
      i := i + 1;
    }
    DuplicatesAll(duplicates, key);
  }

  /** `GetSets`: the grouping pass keyed by `Canonicalize`. */
  method GetSets() returns (uniques: seq<Mask>, duplicates: map<int, Mask>)
    ensures uniques == CanonicalMasks()
    ensures |uniques| == 47
    ensures forall m: Mask :: m in uniques <==> IsCanonical(m)
    ensures forall m: Mask :: m as int in duplicates <==> !IsCanonical(m)
    ensures forall m: Mask | m as int in duplicates :: duplicates[m as int] == Canonicalize(m)
    ensures forall r | r in duplicates :: 0 <= r < 256
  {
    assert Retraction(Canonicalize) by {
      forall m: Mask ensures Canonicalize(m) <= m && Canonicalize(Canonicalize(m)) == Canonicalize(m) {
        var c := Canonicalize(m);
        assert Canonicalize(c) == c;
      }
    }
    uniques, duplicates := GroupByKey(Canonicalize);
    CollectExtensional(256, FixedBy(Canonicalize), IsCanonical);
  }
}
