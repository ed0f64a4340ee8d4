/**
 The leaf texts of a canonical identity: UTF-8, decimal integers, hexadecimal floats and
 fixed-width big-endian lengths. Every one of them is shown to lose nothing.
 */
module Scalars {

  type Byte = b: int | 0 <= b < 256
  type Bytes = seq<Byte>

  /** A Python text is a list of code points; a lone surrogate has no UTF-8 form. */
  type CodePoint = c: int | 0 <= c < 0x110000
  type Text = seq<CodePoint>

  /** What `str.strip` takes off. */
  predicate Space(c: CodePoint) {
    || 9 <= c <= 13 || 28 <= c <= 32 || c == 133 || c == 160 || c == 5760 || 8192 <= c <= 8202
    || c == 8232 || c == 8233 || c == 8239 || c == 8287 || c == 12288
  }

  function Strip(t: Text): Text {
    if t != [] && Space(t[0]) then Strip(t[1..])
    else if t != [] && Space(t[|t| - 1]) then Strip(t[..|t| - 1])
    else t
  }

  /** The order in which Python compares strings, and, as bytes are code points too, byte strings. */
  predicate TextLeq(a: Text, b: Text) {
    a == [] || (b != [] && (a[0] < b[0] || (a[0] == b[0] && TextLeq(a[1..], b[1..]))))
  }

  lemma {:induction false} TextLeqTotal(a: Text, b: Text)
    ensures TextLeq(a, b) || TextLeq(b, a)
  {
    if a != [] && b != [] && a[0] == b[0] {
      TextLeqTotal(a[1..], b[1..]);
    }
  }

  lemma {:induction false} TextLeqAntisymmetric(a: Text, b: Text)
    requires TextLeq(a, b) && TextLeq(b, a)
    ensures a == b
  {
    if a != [] {
      TextLeqAntisymmetric(a[1..], b[1..]);
      assert a == [a[0]] + a[1..] && b == [b[0]] + b[1..];
    }
  }

  lemma {:induction false} TextLeqTransitive(a: Text, b: Text, c: Text)
    requires TextLeq(a, b) && TextLeq(b, c)
    ensures TextLeq(a, c)
  {
    if a != [] && a[0] == b[0] == c[0] {
      TextLeqTransitive(a[1..], b[1..], c[1..]);
    }
  }

  /** Sorted, and nothing twice. */
  ghost predicate Ascends(xs: seq<Text>) {
    forall i, j :: 0 <= i < j < |xs| ==> TextLeq(xs[i], xs[j]) && xs[i] != xs[j]
  }

  /** A sorted list without repetitions is known by its members. */
  lemma {:induction false} AscendingSame(xs: seq<Text>, ys: seq<Text>)
    requires Ascends(xs) && Ascends(ys) && forall x :: x in xs <==> x in ys
    ensures xs == ys
  {
    assert ys == [] || ys[0] in ys;
    if xs != [] {
      assert xs[0] in ys && ys != [] && ys[0] in xs;
      if xs[0] != ys[0] {
        var i :| 0 <= i < |xs| && xs[i] == ys[0];
        var j :| 0 <= j < |ys| && ys[j] == xs[0];
        TextLeqAntisymmetric(xs[0], ys[0]);
      }
      forall x ensures x in xs[1..] <==> x in ys[1..] {
        assert x in xs <==> x == xs[0] || x in xs[1..];
        assert x in ys <==> x == ys[0] || x in ys[1..];
      }
      AscendingSame(xs[1..], ys[1..]);
    }
  }

  predicate Encodable(t: Text) {
    forall i :: 0 <= i < |t| ==> !(0xD800 <= t[i] < 0xE000)
  }

  function Utf8Char(c: CodePoint): Bytes {
    if c < 0x80 then [c]
    else if c < 0x800 then [0xC0 + c / 64, 0x80 + c % 64]
    else if c < 0x10000 then [0xE0 + c / 4096, 0x80 + c / 64 % 64, 0x80 + c % 64]
    else [0xF0 + c / 262144, 0x80 + c / 4096 % 64, 0x80 + c / 64 % 64, 0x80 + c % 64]
  }

  function Utf8(t: Text): Bytes {
    if t == [] then [] else Utf8Char(t[0]) + Utf8(t[1..])
  }

  /** The first byte of a character tells how many there are. */
  function CharWidth(lead: Byte): nat {
    if lead < 0x80 then 1 else if lead < 0xE0 then 2 else if lead < 0xF0 then 3 else 4
  }

  /** Reads a character back from its bytes. */
  function CharValue(x: Bytes): int
    requires x != [] && |x| == CharWidth(x[0])
  {
    var at := (i: nat) requires i < |x| => x[i] as int;
    if |x| == 1 then at(0)
    else if |x| == 2 then (at(0) - 0xC0) * 64 + at(1) - 0x80
    else if |x| == 3 then (at(0) - 0xE0) * 4096 + (at(1) - 0x80) * 64 + at(2) - 0x80
    else (at(0) - 0xF0) * 262144 + (at(1) - 0x80) * 4096 + (at(2) - 0x80) * 64 + at(3) - 0x80
  }

  lemma Utf8CharReadsBack(c: CodePoint)
    ensures Utf8Char(c) != [] && |Utf8Char(c)| == CharWidth(Utf8Char(c)[0])
    ensures CharValue(Utf8Char(c)) == c
  {
    assert c / 4096 == c / 64 / 64;
    assert c / 262144 == c / 64 / 64 / 64;
  }

  /** One character's bytes are never a proper prefix of another's. */
  lemma Utf8CharPrefixFree(c: CodePoint, d: CodePoint, r: Bytes, s: Bytes)
    requires Utf8Char(c) + r == Utf8Char(d) + s
    ensures c == d && r == s
  {
    var x, y := Utf8Char(c), Utf8Char(d);
    Utf8CharReadsBack(c);
    Utf8CharReadsBack(d);
    assert x[0] == (x + r)[0] == (y + s)[0] == y[0];
    assert x == (x + r)[..|x|] == (y + s)[..|y|] == y;
    assert r == (x + r)[|x|..] == (y + s)[|y|..] == s;
  }

  lemma {:induction false} Utf8Injective(t: Text, u: Text)
    requires Utf8(t) == Utf8(u)
    ensures t == u
  {
    if t == [] || u == [] {
    } else {
      Utf8CharPrefixFree(t[0], u[0], Utf8(t[1..]), Utf8(u[1..]));
      Utf8Injective(t[1..], u[1..]);
      assert t == [t[0]] + t[1..] && u == [u[0]] + u[1..];
    }
  }

  /** The two radices in use: hexadecimal digits and bytes. */
  datatype Radix = Hexadecimal | Base256 {
    function Size(): nat {
      if Hexadecimal? then 16 else 256
    }

    function High(n: nat): nat {
      if Hexadecimal? then n / 16 else n / 256
    }

    function Low(n: nat): (d: nat)
      ensures d < Size()
    {
      if Hexadecimal? then n % 16 else n % 256
    }
  }

  /** The `width` low digits of `n`, most significant first. */
  function FixedWidth(radix: Radix, n: nat, width: nat): (digits: seq<nat>)
    ensures |digits| == width
    ensures forall i :: 0 <= i < width ==> digits[i] < radix.Size()
  {
    if width == 0 then [] else FixedWidth(radix, radix.High(n), width - 1) + [radix.Low(n)]
  }

  /** Whether `width` digits are enough for `n`. */
  predicate Fits(radix: Radix, n: nat, width: nat) {
    if width == 0 then n == 0 else Fits(radix, radix.High(n), width - 1)
  }

  lemma {:induction false} FixedWidthInjective(radix: Radix, n: nat, m: nat, width: nat)
    requires Fits(radix, n, width) && Fits(radix, m, width)
    requires FixedWidth(radix, n, width) == FixedWidth(radix, m, width)
    ensures n == m
  {
    if width > 0 {
      FixedWidthLastDigit(radix, n, width);
      FixedWidthLastDigit(radix, m, width);
      FixedWidthInjective(radix, radix.High(n), radix.High(m), width - 1);
    }
  }

  lemma FixedWidthLastDigit(radix: Radix, n: nat, width: nat)
    requires width > 0
    ensures FixedWidth(radix, n, width)[width - 1] == radix.Low(n)
    ensures FixedWidth(radix, n, width)[..width - 1] == FixedWidth(radix, radix.High(n), width - 1)
  {
  }

  /** `len(payload).to_bytes(8, "big")`: defined below 2^64, an OverflowError above. */
  const LENGTH_LIMIT: nat := 0x1_0000_0000_0000_0000

  function BigEndian8(n: nat): (bytes: Bytes)
    ensures |bytes| == 8
  {
    var digits := FixedWidth(Base256, n, 8);
    seq(8, i requires 0 <= i < 8 => digits[i])
  }

  lemma FitsEightBytes(n: nat)
    requires n < LENGTH_LIMIT
    ensures Fits(Base256, n, 8)
  {
    var q := n / 256 / 256 / 256 / 256;
    assert Fits(Base256, q, 4) by {
      assert Fits(Base256, q / 256 / 256, 2);
      assert Fits(Base256, q / 256, 3);
    }
    assert Fits(Base256, n / 256 / 256 / 256, 5);
    assert Fits(Base256, n / 256 / 256, 6);
    assert Fits(Base256, n / 256, 7);
  }

  lemma BigEndian8Injective(n: nat, m: nat)
    requires n < LENGTH_LIMIT && m < LENGTH_LIMIT
    requires BigEndian8(n) == BigEndian8(m)
    ensures n == m
  {
    var a, b := FixedWidth(Base256, n, 8), FixedWidth(Base256, m, 8);
    forall i | 0 <= i < 8 ensures a[i] == b[i] {
      assert BigEndian8(n)[i] == BigEndian8(m)[i];
    }
    assert a == b;
    FitsEightBytes(n);
    FitsEightBytes(m);
    FixedWidthInjective(Base256, n, m, 8);
  }

  // Decimal integers, as `str` prints them.

  function Decimal(n: nat): Bytes {
    if n < 10 then [48 + n] else Decimal(n / 10) + [48 + n % 10]
  }

  function Signed(i: int): Bytes {
    if i < 0 then [45] + Decimal(-i) else Decimal(i)
  }

  function DecimalValue(digits: Bytes): int {
    if digits == [] then 0
    else DecimalValue(digits[..|digits| - 1]) * 10 + digits[|digits| - 1] - 48
  }

  lemma {:induction false} DecimalRoundTrip(n: nat)
    ensures DecimalValue(Decimal(n)) == n
    ensures |Decimal(n)| > 0
    ensures forall i :: 0 <= i < |Decimal(n)| ==> 48 <= Decimal(n)[i] < 58
  {
    var d := Decimal(n);
    if n >= 10 {
      DecimalRoundTrip(n / 10);
      assert d[..|d| - 1] == Decimal(n / 10);
    } else {
      assert d[..0] == [];
    }
  }

  lemma SignedInjective(i: int, j: int)
    requires Signed(i) == Signed(j)
    ensures i == j
  {
    DecimalRoundTrip(if i < 0 then -i else i);
    DecimalRoundTrip(if j < 0 then -j else j);
    assert Signed(i)[0] == Signed(j)[0];
    assert Signed(i)[1..] == Signed(j)[1..];
    assert i < 0 ==> Signed(i)[1..] == Decimal(-i);
    assert j < 0 ==> Signed(j)[1..] == Decimal(-j);
  }

  // Binary64 values, as `float.hex` prints them.

  /** A double by class; `fraction` is the 52-bit significand field. */
  type Fraction = n: nat | n < 0x10_0000_0000_0000

  datatype Double =
    | NotANumber(payload: Fraction)
    | Infinity(negative: bool)
    | Zero(negative: bool)
    | Subnormal(negative: bool, fraction: Fraction)
    | Normal(negative: bool, fraction: Fraction, exponent: int)

  function Sign(negative: bool): Bytes {
    if negative then [45] else []
  }

  function HexDigit(d: nat): Byte
    requires d < 16
  {
    if d < 10 then 48 + d else 87 + d
  }

  /** The thirteen hexadecimal digits of the significand field. */
  function HexFraction(n: Fraction): (digits: Bytes)
    ensures |digits| == 13
  {
    var d := FixedWidth(Hexadecimal, n, 13);
    seq(13, i requires 0 <= i < 13 => HexDigit(d[i]))
  }

  /** `"%+d"`. */
  function Exponent(e: int): Bytes {
    if e < 0 then Signed(e) else [43] + Signed(e)
  }

  /** `nan`, `inf`, `0x0.0p+0`, `0x0.<13 digits>p-1022` or `0x1.<13 digits>p<exponent>`, signed. */
  function HexText(f: Double): Bytes {
    match f
    case NotANumber(_) => [110, 97, 110]
    case Infinity(neg) => Sign(neg) + [105, 110, 102]
    case Zero(neg) => Sign(neg) + [48, 120, 48, 46, 48, 112, 43, 48]
    case Subnormal(neg, n) => Sign(neg) + ([48, 120, 48, 46] + HexFraction(n) + [112] + Exponent(-1022))
    case Normal(neg, n, e) => Sign(neg) + ([48, 120, 49, 46] + HexFraction(n) + [112] + Exponent(e))
  }

  lemma FitsThirteenHexDigits(n: Fraction)
    ensures Fits(Hexadecimal, n, 13)
  {
    var radix := Hexadecimal;
    var a := n / 16 / 16 / 16 / 16;
    var b := a / 16 / 16 / 16 / 16;
    assert Fits(radix, b / 16 / 16 / 16 / 16, 1);
    assert Fits(radix, b / 16 / 16, 3);
    assert Fits(radix, b, 5);
    assert Fits(radix, a / 16 / 16 / 16, 6);
    assert Fits(radix, a / 16, 8);
    assert Fits(radix, n / 16 / 16 / 16, 10);
    assert Fits(radix, n / 16, 12);
  }

  lemma HexFractionInjective(n: Fraction, m: Fraction)
    requires HexFraction(n) == HexFraction(m)
    ensures n == m
  {
    var a, b := FixedWidth(Hexadecimal, n, 13), FixedWidth(Hexadecimal, m, 13);
    forall i | 0 <= i < 13 ensures a[i] == b[i] {
      assert HexFraction(n)[i] == HexFraction(m)[i];
    }
    assert a == b;
    FitsThirteenHexDigits(n);
    FitsThirteenHexDigits(m);
    FixedWidthInjective(Hexadecimal, n, m, 13);
  }

  lemma ExponentInjective(e: int, k: int)
    requires Exponent(e) == Exponent(k)
    ensures e == k
  {
    DecimalRoundTrip(if e < 0 then -e else e);
    DecimalRoundTrip(if k < 0 then -k else k);
    assert Exponent(e)[0] == Exponent(k)[0];
    assert Exponent(e)[1..] == Exponent(k)[1..];
    assert e >= 0 ==> Exponent(e)[1..] == Signed(e);
    assert k >= 0 ==> Exponent(k)[1..] == Signed(k);
    SignedInjective(e, if (e < 0) == (k < 0) then k else e);
  }

  /** The text without its sign. */
  function Unsigned(f: Double): Bytes {
    match f
    case NotANumber(_) => [110, 97, 110]
    case Infinity(_) => [105, 110, 102]
    case Zero(_) => [48, 120, 48, 46, 48, 112, 43, 48]
    case Subnormal(_, n) => [48, 120, 48, 46] + HexFraction(n) + [112] + Exponent(-1022)
    case Normal(_, n, e) => [48, 120, 49, 46] + HexFraction(n) + [112] + Exponent(e)
  }

  predicate Negative(f: Double) {
    !f.NotANumber? && f.negative
  }

  lemma HexTextSign(f: Double)
    ensures HexText(f) == Sign(Negative(f)) + Unsigned(f)
    ensures |Unsigned(f)| > 0 && Unsigned(f)[0] != 45
  {
    assert f.NotANumber? ==> HexText(f) == [] + Unsigned(f);
  }

  lemma HexBodyInjective(n: Fraction, e: int, m: Fraction, k: int, lead: Bytes)
    requires |lead| == 4
    requires lead + HexFraction(n) + [112] + Exponent(e) == lead + HexFraction(m) + [112] + Exponent(k)
    ensures n == m && e == k
  {
    var x, y := lead + HexFraction(n) + [112] + Exponent(e), lead + HexFraction(m) + [112] + Exponent(k);
    assert x[4..17] == HexFraction(n) && y[4..17] == HexFraction(m);
    assert x[18..] == Exponent(e) && y[18..] == Exponent(k);
    HexFractionInjective(n, m);
    ExponentInjective(e, k);
  }

  lemma UnsignedInjective(f: Double, g: Double)
    requires Unsigned(f) == Unsigned(g)
    ensures f.NotANumber? || g.NotANumber? ==> f.NotANumber? && g.NotANumber?
    ensures !f.NotANumber? && Negative(f) == Negative(g) ==> f == g
  {
    var x, y := Unsigned(f), Unsigned(g);
    assert x[0] == y[0];
    if |x| > 3 && |y| > 3 {
      assert x[2] == y[2];
      if f.Normal? && g.Normal? {
        HexBodyInjective(f.fraction, f.exponent, g.fraction, g.exponent, [48, 120, 49, 46]);
      } else if f.Subnormal? && g.Subnormal? {
        HexBodyInjective(f.fraction, -1022, g.fraction, -1022, [48, 120, 48, 46]);
      }
    }
  }

  /** Two floats print alike exactly when they are the same double, all NaNs counting as one. */
  lemma HexTextExact(f: Double, g: Double)
    ensures HexText(f) == HexText(g) <==> (f == g || (f.NotANumber? && g.NotANumber?))
  {
    HexTextSign(f);
    HexTextSign(g);
    if HexText(f) == HexText(g) {
      assert HexText(f)[0] == HexText(g)[0];
      assert Negative(f) == Negative(g);
      var k := if Negative(f) then 1 else 0;
      assert HexText(f)[k..] == Unsigned(f) && HexText(g)[k..] == Unsigned(g);
      UnsignedInjective(f, g);
    }
  }
}
