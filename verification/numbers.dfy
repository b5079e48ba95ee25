/** 32-bit integers as the tileset loader sees them: the range of C# `int`, the unchecked
    narrowing cast, two's complement bit patterns, and the decimal text that the XML
    serializer writes and `Int32.TryParse(…, NumberStyles.Integer, …)` reads back. */
module Numbers {
  import opened Results

  const TwoTo31: int := 0x8000_0000
  const TwoTo32: int := 0x1_0000_0000
  const TwoTo63: int := 0x8000_0000_0000_0000

  /** `n` fits a C# `int`. */
  predicate IsInt32(n: int) {
    -TwoTo31 <= n < TwoTo31
  }

  /** `n` fits a C# `long`. */
  predicate IsInt64(n: int) {
    -TwoTo63 <= n < TwoTo63
  }

  /** The values of a C# `int`. */
  type Int32 = n: int | IsInt32(n)

  /** Every `int` is a `long`. */
  lemma Int32IsInt64(n: int)
    requires IsInt32(n)
    ensures IsInt64(n)
  {
    assert TwoTo31 < TwoTo63;
  }

  /** The unchecked cast `(int)n`: the low 32 bits of `n`, read as two's complement. */
  function Wrap32(n: int): (r: int)
    ensures IsInt32(r)
    ensures (n - r) % TwoTo32 == 0
    ensures IsInt32(n) ==> r == n
  {
    var low := n % TwoTo32;
    if low >= TwoTo31 then low - TwoTo32 else low
  }

  /** Two to the power `p`. */
  function Pow2(p: nat): (r: nat)
    ensures r >= 1
  {
    if p == 0 then 1 else 2 * Pow2(p - 1)
  }

  lemma {:induction false} Pow2Monotone(p: nat, q: nat)
    requires p <= q
    ensures Pow2(p) <= Pow2(q)
    decreases q - p
  {
    if p < q {
      Pow2Monotone(p, q - 1);
    }
  }

  /** `n` as an unsigned 32-bit pattern. */
  function Unsigned32(n: int): (u: nat)
    ensures u < TwoTo32
    ensures 0 <= n < TwoTo32 ==> u == n
  {
    n % TwoTo32
  }

  /** The `int` whose unsigned 32-bit pattern is `u`. */
  function Signed32(u: nat): (n: int)
    requires u < TwoTo32
    ensures IsInt32(n) && Unsigned32(n) == u
  {
    if u >= TwoTo31 then u - TwoTo32 else u
  }

  /** The bitwise OR of the low `width` bits of `a` and `b`. */
  function OrBits(a: nat, b: nat, width: nat): (r: nat)
    ensures r < Pow2(width)
    decreases width
  {
    if width == 0 then 0
    else (if a % 2 == 1 || b % 2 == 1 then 1 else 0) + 2 * OrBits(a / 2, b / 2, width - 1)
  }

  /** The 32-bit pattern space has `Pow2(32)` members. */
  lemma Pow2Of32()
    ensures Pow2(32) == TwoTo32
  {
    assert Pow2(1) == 2;
    Pow2Add(1, 1);
    Pow2Add(2, 2);
    Pow2Add(4, 4);
    Pow2Add(8, 8);
    Pow2Add(16, 16);
  }

  /** Powers of two multiply by adding exponents. */
  lemma {:induction false} Pow2Add(p: nat, q: nat)
    ensures Pow2(p + q) == Pow2(p) * Pow2(q)
    decreases q
  {
    if q > 0 {
      Pow2Add(p, q - 1);
      assert Pow2(p + q) == 2 * Pow2(p + q - 1);
      assert Pow2(q) == 2 * Pow2(q - 1);
    }
  }

  /** `a | b` on C# `int`s: the OR of their two's complement patterns. */
  function Or32(a: int, b: int): (r: int)
    ensures IsInt32(r)
  {
    Pow2Of32();
    Signed32(OrBits(Unsigned32(a), Unsigned32(b), 32))
  }

  /** OR with nothing keeps nothing. */
  lemma {:induction false} OrBitsZero(width: nat)
    ensures OrBits(0, 0, width) == 0
    decreases width
  {
    if width > 0 {
      OrBitsZero(width - 1);
    }
  }

  /** Setting a bit above every bit of `a` adds its value. */
  lemma {:induction false} OrBitsAddPower(a: nat, k: nat, width: nat)
    requires a < Pow2(k) && k < width
    ensures OrBits(a, Pow2(k), width) == a + Pow2(k)
    decreases k
  {
    if k == 0 {
      OrBitsZero(width - 1);
    } else {
      assert Pow2(k) == 2 * Pow2(k - 1);
      OrBitsAddPower(a / 2, k - 1, width - 1);
    }
  }

  /** OR-ing a small non-negative `int` with a higher power of two adds the power. */
  lemma Or32AddPower(a: int, k: nat)
    requires 0 <= a < Pow2(k) && k < 31
    ensures Or32(a, Pow2(k)) == a + Pow2(k)
  {
    Pow2Of32();
    Pow2Monotone(k + 1, 31);
    assert Pow2(31) == TwoTo31 by {
      Pow2Add(31, 1);
    }
    OrBitsAddPower(a, k, 32);
  }

  /** Whitespace as `NumberStyles.AllowLeadingWhite` and `AllowTrailingWhite` define it. */
  predicate IsWhite(c: char) {
    c == ' ' || '\t' <= c <= '\r'
  }

  predicate IsDigit(c: char) {
    '0' <= c <= '9'
  }

  function DigitValue(c: char): (d: nat)
    requires IsDigit(c)
    ensures d < 10
  {
    (c as int - '0' as int) as nat
  }

  function DigitChar(d: nat): (c: char)
    requires d < 10
    ensures IsDigit(c) && DigitValue(c) == d
  {
    ('0' as int + d) as char
  }

  /** Every character of `s` is a decimal digit. */
  predicate AllDigits(s: string)
    decreases |s|
  {
    s == [] || (IsDigit(s[|s| - 1]) && AllDigits(s[..|s| - 1]))
  }

  /** The value of a string of decimal digits, most significant first. */
  function DigitsValue(s: string): (v: nat)
    requires AllDigits(s)
  {
    if s == [] then 0 else 10 * DigitsValue(s[..|s| - 1]) + DigitValue(s[|s| - 1])
  }

  /** The shortest decimal digits of `n`. */
  function ShowNat(n: nat): (s: string)
    ensures |s| > 0 && AllDigits(s) && forall i | 0 <= i < |s| :: IsDigit(s[i])
  {
    if n < 10 then [DigitChar(n)]
    else
      var prefix := ShowNat(n / 10);
      var s := prefix + [DigitChar(n % 10)];
      assert s[..|s| - 1] == prefix;
      s
  }

  /** `XmlConvert.ToString(int)`: an optional minus sign, then the digits. */
  function ShowInt(n: int): (s: string)
    ensures |s| > 0
  {
    if n < 0 then "-" + ShowNat(-n) else ShowNat(n)
  }

  /** `s` without leading whitespace. */
  function TrimStart(s: string): (t: string)
    ensures |t| <= |s| && t == s[|s| - |t|..]
    ensures t == [] || !IsWhite(t[0])
  {
    if s != [] && IsWhite(s[0]) then TrimStart(s[1..]) else s
  }

  /** `s` without trailing whitespace. */
  function TrimEnd(s: string): (t: string)
    ensures |t| <= |s| && t == s[..|t|]
    ensures t == [] || !IsWhite(t[|t| - 1])
  {
    if s != [] && IsWhite(s[|s| - 1]) then TrimEnd(s[..|s| - 1]) else s
  }

  /** `Int32.TryParse(s, NumberStyles.Integer, CultureInfo.InvariantCulture, out v)`:
      optional surrounding whitespace, an optional `+` or `-`, at least one digit, and a
      value that fits an `int`; `None` when the call returns false. */
  function ParseInt32(s: string): (r: Option<int>)
    ensures r.Some? ==> IsInt32(r.value)
  {
    var t := TrimEnd(TrimStart(s));
    var negative := |t| > 0 && t[0] == '-';
    var digits := if |t| > 0 && (t[0] == '-' || t[0] == '+') then t[1..] else t;
    if digits == [] || !AllDigits(digits) then None
    else
      var value: int := DigitsValue(digits);
      var v := if negative then -value else value;
      if IsInt32(v) then Some(v) else None
  }

  /** Reading back the digits of `n` gives `n`. */
  lemma {:induction false} ShowNatValue(n: nat)
    ensures DigitsValue(ShowNat(n)) == n
  {
    if n >= 10 {
      ShowNatValue(n / 10);
      var s := ShowNat(n);
      assert s[..|s| - 1] == ShowNat(n / 10);
    }
  }

  /** The digits of a number hold no whitespace and no sign. */
  lemma ShowNatPlain(n: nat)
    ensures forall i | 0 <= i < |ShowNat(n)| :: !IsWhite(ShowNat(n)[i]) && ShowNat(n)[i] != '-' && ShowNat(n)[i] != '+'
  {
  }

  /** What the serializer writes, the parser reads back: every `int` survives the XML
      round trip. */
  lemma ParseShowInt(n: int)
    requires IsInt32(n)
    ensures ParseInt32(ShowInt(n)) == Some(n)
  {
    var s := ShowInt(n);
    var m: nat := if n < 0 then -n else n;
    ShowNatValue(m);
    ShowNatPlain(m);
    assert TrimStart(s) == s;
    assert TrimEnd(s) == s;
    if n < 0 {
      assert s[1..] == ShowNat(m);
    }
  }
}
