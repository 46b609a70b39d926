/**
 * The numeric conversions the decoders apply to text fields: JavaScript
 * `parseFloat`, `parseInt(s)` and `parseInt(s, 16)`, and Python `float(s)`.
 * Values are exact reals and integers; IEEE-754 rounding is not modelled.
 */
module Numbers {
  import opened Wrappers
  import opened Strings

  /** A JavaScript number as the decoders can produce it: a finite value or NaN. */
  datatype JsNumber = Finite(v: real) | NaN

  /** JavaScript truthiness of a number: NaN and 0 are falsy. */
  predicate Truthy(n: JsNumber) {
    n.Finite? && n.v != 0.0
  }

  /** `x || 0` for an optional number: the value if it is present and truthy, else 0. */
  function OrZero(n: Option<JsNumber>): (r: real)
    ensures r != 0.0 <==> n.Some? && Truthy(n.value)
    ensures r != 0.0 ==> n == Some(Finite(r))
  {
    if n.Some? && Truthy(n.value) then n.value.v else 0.0
  }

  /** Value of a hexadecimal digit; 0 for any other character. */
  function HexDigitValue(c: char): (d: nat)
    ensures d < 16
    ensures IsDigit(c) ==> d < 10
  {
    if IsDigit(c) then c as int - '0' as int
    else if 'a' <= c <= 'f' then c as int - 'a' as int + 10
    else if 'A' <= c <= 'F' then c as int - 'A' as int + 10
    else 0
  }

  function Pow10(n: nat): (r: nat)
    ensures r >= 1
  {
    if n == 0 then 1 else 10 * Pow10(n - 1)
  }

  /** Powers of ten multiply by adding their exponents. */
  lemma {:induction false} Pow10Add(a: nat, b: nat)
    ensures Pow10(a + b) == Pow10(a) * Pow10(b)
  {
    if a > 0 {
      Pow10Add(a - 1, b);
      assert Pow10(a + b) == 10 * Pow10((a - 1) + b);
    }
  }

  /** Value of a numeral in base 16 (hex) or 10, most significant digit first. */
  function NumeralValue(s: string, hex: bool): nat {
    if |s| == 0 then 0
    else
      var high := NumeralValue(s[..|s| - 1], hex);
      (if hex then 16 * high else 10 * high) + HexDigitValue(s[|s| - 1])
  }

  /** The longest prefix of s whose characters all satisfy p. */
  function Leading(s: string, p: CharClass): (r: string)
    ensures |r| <= |s|
    decreases |s|
  {
    if |s| > 0 && In(s[0], p) then [s[0]] + Leading(s[1..], p) else ""
  }

  /** Leading is the longest prefix of p characters: all of it is in p and the next character is not. */
  lemma {:induction false} LeadingSpec(s: string, p: CharClass)
    ensures var r := Leading(s, p);
      r == s[..|r|] && (forall i :: 0 <= i < |r| ==> In(r[i], p)) && (|r| == |s| || !In(s[|r|], p))
    decreases |s|
  {
    if |s| > 0 && In(s[0], p) {
      LeadingSpec(s[1..], p);
      var r := Leading(s, p);
      assert r == [s[0]] + Leading(s[1..], p);
      assert forall i :: 1 <= i < |r| ==> r[i] == Leading(s[1..], p)[i - 1];
    }
  }

  /** An optional leading '+' or '-': whether it was '-', and the text after it. */
  function SplitSign(s: string): (bool, string) {
    if |s| > 0 && s[0] == '-' then (true, s[1..])
    else if |s| > 0 && s[0] == '+' then (false, s[1..])
    else (false, s)
  }

  function Signed(neg: bool, v: real): real {
    if neg then -v else v
  }

  /** 10 to the power e, for a signed exponent. */
  function Scale(e: int): (r: real)
    ensures r > 0.0
  {
    if e >= 0 then Pow10(e) as real else 1.0 / Pow10(-e) as real
  }

  /** A mantissa v with the exponent e: v times 10 to the power e. */
  function Scaled(v: real, e: int): real {
    v * Scale(e)
  }

  /** An exponent part `e[+-]digits` at the start of t: its length (0 when absent) and value. */
  function ScanExponent(t: string): (r: (nat, int))
    ensures r.0 <= |t|
    ensures r.0 == 0 ==> r.1 == 0
  {
    if |t| >= 2 && (t[0] == 'e' || t[0] == 'E') then
      var signLen := if t[1] == '+' || t[1] == '-' then 1 else 0;
      var digits := Leading(t[1 + signLen..], Decimal);
      if |digits| == 0 then (0, 0)
      else
        var v: int := NumeralValue(digits, false);
        (1 + signLen + |digits|, if t[1] == '-' then -v else v)
    else (0, 0)
  }

  /** Value of `whole.frac` for two digit strings. */
  function DecimalValue(whole: string, frac: string): (r: real)
    ensures r >= NumeralValue(whole, false) as real
  {
    var f := NumeralValue(frac, false) as real / Pow10(|frac|) as real;
    assert f >= 0.0;
    NumeralValue(whole, false) as real + f
  }

  /**
   * The longest prefix of s that is an unsigned decimal literal (digits with
   * an optional fraction, or a point followed by digits, then an optional
   * exponent), as a length and a value; the length is 0 when there is none.
   */
  function ScanDecimal(s: string): (r: (nat, real))
    ensures r.0 <= |s|
  {
    var whole := Leading(s, Decimal);
    var k := |whole|;
    var point := k < |s| && s[k] == '.';
    var frac := if point then Leading(s[k + 1..], Decimal) else "";
    var m := if point then k + 1 + |frac| else k;
    if k == 0 && |frac| == 0 then (0, 0.0)
    else
      var e := ScanExponent(s[m..]);
      var mantissa := DecimalValue(whole, frac);
      (m + e.0, if e.0 == 0 then mantissa else Scaled(mantissa, e.1))
  }

  /** JavaScript `parseFloat(s)`: the decimal literal that starts s after white space, else NaN. */
  function JsParseFloat(s: string): JsNumber {
    var signed := SplitSign(TrimLeft(s, JsSpace));
    var scan := ScanDecimal(signed.1);
    if scan.0 == 0 then NaN else Finite(Signed(signed.0, scan.1))
  }

  /** Python `float(s)`: the whole of s, white space aside, must be a decimal literal; None stands for ValueError. */
  function PyFloat(s: string): Option<real> {
    var signed := SplitSign(PyStrip(s));
    var scan := ScanDecimal(signed.1);
    if scan.0 == 0 || scan.0 != |signed.1| then None else Some(Signed(signed.0, scan.1))
  }

  /**
   * JavaScript `parseInt(s)` (hex false) or `parseInt(s, 16)` (hex true):
   * the integer spelled by the longest run of digits after white space, a
   * sign and, in base 16 or when no radix is given, a `0x` prefix that
   * switches to base 16; None stands for NaN.
   */
  function JsParseInt(s: string, hex: bool): Option<int> {
    var signed := SplitSign(TrimLeft(s, JsSpace));
    var magnitude := UnsignedInt(signed.1, hex);
    if magnitude.None? then None
    else
      var v: int := magnitude.value;
      Some(if signed.0 then -v else v)
  }

  /** The `0x` / `0X` prefix that makes `parseInt` read base 16. */
  predicate HexPrefixed(s: string) {
    |s| >= 2 && s[0] == '0' && (s[1] == 'x' || s[1] == 'X')
  }

  /** `parseInt` after the sign: a `0x` prefix switches to base 16. */
  function UnsignedInt(rest: string, hex: bool): Option<nat> {
    if HexPrefixed(rest) then LeadingNumeral(rest[2..], true) else LeadingNumeral(rest, hex)
  }

  /** The value of the leading run of digits, None when there is none. */
  function LeadingNumeral(body: string, hex: bool): Option<nat> {
    var digits := Leading(body, if hex then Hex else Decimal);
    if |digits| == 0 then None else Some(NumeralValue(digits, hex))
  }

  // ---------------------------------------------------------------------
  // Well-formed numerals read back as the values they spell.

  lemma TrimLeftNoop(s: string, ws: CharClass)
    requires s == [] || !In(s[0], ws)
    ensures TrimLeft(s, ws) == s
  {
  }

  lemma TrimRightNoop(s: string, ws: CharClass)
    requires s == [] || !In(s[|s| - 1], ws)
    ensures TrimRight(s, ws) == s
  {
  }

  /** When every character of x satisfies p and y does not start with one, the leading run is x. */
  lemma {:induction false} LeadingOf(x: string, y: string, p: CharClass)
    requires forall i :: 0 <= i < |x| ==> In(x[i], p)
    requires y == [] || !In(y[0], p)
    ensures Leading(x + y, p) == x
    decreases |x|
  {
    if |x| == 0 {
      assert x + y == y;
    } else {
      assert (x + y)[0] == x[0];
      assert (x + y)[1..] == x[1..] + y;
      LeadingOf(x[1..], y, p);
      assert x == [x[0]] + x[1..];
    }
  }

  /** `parseInt` of text that starts with a digit (and no `0x` prefix) reads its leading digits. */
  lemma JsParseIntUnsigned(s: string, hex: bool)
    requires |s| > 0 && IsHexDigit(s[0]) && (hex || IsDigit(s[0])) && !HexPrefixed(s)
    ensures JsParseInt(s, hex) == LeadingNumeral(s, hex)
    ensures LeadingNumeral(s, hex).Some?
  {
    var signed := SplitSign(TrimLeft(s, JsSpace));
    assert signed == (false, s) by {
      TrimLeftNoop(s, JsSpace);
    }
    assert UnsignedInt(s, hex) == LeadingNumeral(s, hex);
    assert |Leading(s, if hex then Hex else Decimal)| > 0;
  }

  /** `parseInt` of a plain run of decimal digits is the number those digits spell. */
  lemma JsParseIntDigits(s: string)
    requires |s| > 0 && forall i :: 0 <= i < |s| ==> IsDigit(s[i])
    ensures JsParseInt(s, false) == Some(NumeralValue(s, false) as int)
  {
    JsParseIntUnsigned(s, false);
    assert s + "" == s;
    LeadingOf(s, "", Decimal);
  }

  /** `parseInt(s, 16)` of a run of hex digits is the number those digits spell. */
  lemma JsParseIntHexDigits(s: string)
    requires |s| > 0 && forall i :: 0 <= i < |s| ==> IsHexDigit(s[i])
    ensures JsParseInt(s, true) == Some(NumeralValue(s, true) as int)
  {
    assert |s| >= 2 ==> IsHexDigit(s[1]);
    JsParseIntUnsigned(s, true);
    assert s + "" == s;
    LeadingOf(s, "", Hex);
  }

  /** One more digit at the end multiplies the value by the base and adds the digit. */
  lemma NumeralSnoc(s: string, c: char, hex: bool)
    ensures NumeralValue(s + [c], hex) == (if hex then 16 else 10) * NumeralValue(s, hex) + HexDigitValue(c)
  {
    assert (s + [c])[..|s|] == s;
  }

  /** A one-digit numeral is the digit's value. */
  lemma NumeralSingle(c: char, hex: bool)
    ensures NumeralValue([c], hex) == HexDigitValue(c)
  {
    assert [c][..0] == [];
  }

  lemma TwoDigitValue(s: string)
    requires |s| == 2
    ensures NumeralValue(s, false) == 10 * HexDigitValue(s[0]) + HexDigitValue(s[1])
  {
    assert s == [s[0]] + [s[1]];
    NumeralSnoc([s[0]], s[1], false);
    NumeralSingle(s[0], false);
  }

  /** A two-digit decimal numeral is ten times its first digit plus its second. */
  lemma TwoDigits(s: string)
    requires |s| == 2 && IsDigit(s[0]) && IsDigit(s[1])
    ensures JsParseInt(s, false) == Some(10 * HexDigitValue(s[0]) + HexDigitValue(s[1]))
  {
    assert forall i :: 0 <= i < |s| ==> IsDigit(s[i]);
    JsParseIntDigits(s);
    TwoDigitValue(s);
  }

  /** `parseInt('20' + yy)` for two digits yy is the year 2000 + yy. */
  lemma CenturyDigits(yy: string)
    requires |yy| == 2 && IsDigit(yy[0]) && IsDigit(yy[1])
    ensures JsParseInt("20" + yy, false) == Some(2000 + 10 * HexDigitValue(yy[0]) + HexDigitValue(yy[1]))
  {
    var s := "20" + yy;
    assert forall i :: 0 <= i < |s| ==> IsDigit(s[i]);
    JsParseIntDigits(s);
    assert NumeralValue(s, false) == 2000 + 10 * HexDigitValue(yy[0]) + HexDigitValue(yy[1]) by {
      assert s == "20" + [yy[0]] + [yy[1]];
      NumeralSnoc("20" + [yy[0]], yy[1], false);
      NumeralSnoc("20", yy[0], false);
      assert "20" == ['2'] + ['0'];
      NumeralSnoc(['2'], '0', false);
      NumeralSingle('2', false);
    }
  }

  /** `parseInt` of the two digits a and b. */
  lemma TwoChars(a: char, b: char)
    requires IsDigit(a) && IsDigit(b)
    ensures JsParseInt([a, b], false) == Some(10 * HexDigitValue(a) + HexDigitValue(b))
  {
    TwoDigits([a, b]);
  }

  /** `parseInt('20' + ab)` of the two digits a and b. */
  lemma CenturyChars(a: char, b: char)
    requires IsDigit(a) && IsDigit(b)
    ensures JsParseInt("20" + [a, b], false) == Some(2000 + 10 * HexDigitValue(a) + HexDigitValue(b))
  {
    CenturyDigits([a, b]);
  }

  /** Scanning `whole.frac` consumes it all and yields its value. */
  lemma ScanFixedPoint(whole: string, frac: string)
    requires |whole| > 0
    requires forall i :: 0 <= i < |whole| ==> IsDigit(whole[i])
    requires forall i :: 0 <= i < |frac| ==> IsDigit(frac[i])
    ensures ScanDecimal(whole + "." + frac) == (|whole| + 1 + |frac|, DecimalValue(whole, frac))
  {
    PointSplit(whole, frac);
    LeadingDigits(whole, "." + frac);
    LeadingDigits(frac, "");
    ScanWholePoint(whole + "." + frac, whole, frac);
  }

  /** The digit run of a digit string followed by a non-digit is that string. */
  lemma LeadingDigits(x: string, y: string)
    requires forall i :: 0 <= i < |x| ==> IsDigit(x[i])
    requires y == [] || !IsDigit(y[0])
    ensures Leading(x + y, Decimal) == x
    ensures y == [] ==> Leading(x, Decimal) == x
  {
    LeadingOf(x, y, Decimal);
    assert y == [] ==> x + y == x;
  }

  lemma PointSplit(whole: string, frac: string)
    ensures var s := whole + "." + frac;
      && s == whole + ("." + frac) && |s| == |whole| + 1 + |frac|
      && s[|whole|] == '.' && s[|whole| + 1..] == frac
  {
    var s := whole + "." + frac;
    assert s[|whole| + 1..] == frac;
  }

  /** A text made of a digit run, a point and a digit run, given by its runs, scans whole. */
  lemma ScanWholePoint(s: string, whole: string, frac: string)
    requires |whole| > 0 && Leading(s, Decimal) == whole
    requires |whole| < |s| && s[|whole|] == '.' && Leading(s[|whole| + 1..], Decimal) == frac
    requires |whole| + 1 + |frac| == |s|
    ensures ScanDecimal(s) == (|s|, DecimalValue(whole, frac))
  {
    assert s[|s|..] == "";
    assert ScanExponent("") == (0, 0);
  }

  /** Text that starts with a digit is read by `parseFloat` without trimming or sign. */
  lemma JsParseFloatUnsigned(s: string)
    requires |s| > 0 && IsDigit(s[0])
    ensures JsParseFloat(s) == if ScanDecimal(s).0 == 0 then NaN else Finite(ScanDecimal(s).1)
  {
    TrimLeftNoop(s, JsSpace);
    assert SplitSign(s) == (false, s);
  }

  /** Text that starts with a digit and ends with a digit or a point is read by `float` without stripping or sign. */
  lemma PyFloatUnsigned(s: string)
    requires |s| > 0 && IsDigit(s[0]) && (IsDigit(s[|s| - 1]) || s[|s| - 1] == '.')
    ensures PyFloat(s) == if ScanDecimal(s).0 == 0 || ScanDecimal(s).0 != |s| then None else Some(ScanDecimal(s).1)
  {
    TrimLeftNoop(s, PySpace);
    TrimRightNoop(s, PySpace);
    assert PyStrip(s) == s;
    assert SplitSign(s) == (false, s);
  }

  /**
   * On a well-formed fixed-point numeral `whole.frac` JavaScript `parseFloat`
   * and Python `float` agree, and both give the value the digits spell.
   */
  lemma ParseFixedPoint(whole: string, frac: string)
    requires |whole| > 0
    requires forall i :: 0 <= i < |whole| ==> IsDigit(whole[i])
    requires forall i :: 0 <= i < |frac| ==> IsDigit(frac[i])
    ensures JsParseFloat(whole + "." + frac) == Finite(DecimalValue(whole, frac))
    ensures PyFloat(whole + "." + frac) == Some(DecimalValue(whole, frac))
  {
    var s := whole + "." + frac;
    assert s[0] == whole[0];
    assert s[|s| - 1] == if |frac| == 0 then '.' else frac[|frac| - 1];
    ScanFixedPoint(whole, frac);
    JsParseFloatUnsigned(s);
    PyFloatUnsigned(s);
  }

  /** `float` of a run of decimal digits is the number those digits spell. */
  lemma PyFloatDigits(s: string)
    requires |s| > 0 && AllDigits(s)
    ensures PyFloat(s) == Some(NumeralValue(s, false) as real)
  {
    ScanDigits(s);
    PyFloatUnsigned(s);
  }

  /** `float` of `<digit>e<digits>` is the digit times ten to the power the digits spell, however large. */
  lemma PyFloatScientific(d: char, e: string)
    requires IsDigit(d) && |e| > 0 && AllDigits(e)
    ensures PyFloat([d] + "e" + e) == Some(Scaled(HexDigitValue(d) as real, NumeralValue(e, false)))
  {
    var s := [d] + "e" + e;
    ScanScientific(d, e);
    assert s[|s| - 1] == e[|e| - 1];
    PyFloatUnsigned(s);
  }

  /** The literal `<digit>e<digits>` is scanned whole: a one-digit mantissa and an exponent. */
  lemma ScanScientific(d: char, e: string)
    requires IsDigit(d) && |e| > 0 && AllDigits(e)
    ensures ScanDecimal([d] + "e" + e) == (2 + |e|, Scaled(HexDigitValue(d) as real, NumeralValue(e, false)))
  {
    var s := [d] + "e" + e;
    var t := "e" + e;
    assert s == [d] + t && s[1..] == t && s[1] == 'e';
    assert Leading(s, Decimal) == [d] by { LeadingDigits([d], t); }
    assert ScanExponent(t) == (1 + |e|, NumeralValue(e, false)) by { ScanExponentDigits(e); }
    ScanWholeExponent(s, [d], t);
    DecimalDigit(d);
  }

  /** A single digit without a fraction is worth that digit. */
  lemma DecimalDigit(d: char)
    ensures DecimalValue([d], "") == HexDigitValue(d) as real
  {
    NumeralSingle(d, false);
  }

  /** A run of digits followed by an exponent part and nothing else is scanned whole. */
  lemma ScanWholeExponent(s: string, whole: string, t: string)
    requires |whole| > 0 && Leading(s, Decimal) == whole
    requires |whole| < |s| && s[|whole|] != '.' && s[|whole|..] == t && ScanExponent(t).0 == |t|
    ensures ScanDecimal(s) == (|s|, Scaled(DecimalValue(whole, ""), ScanExponent(t).1))
  {
    var k := |whole|;
    assert !(k < |s| && s[k] == '.');
    assert ScanExponent(s[k..]).0 != 0;
  }

  /** An exponent part `e<digits>` without a sign. */
  lemma ScanExponentDigits(e: string)
    requires |e| > 0 && AllDigits(e)
    ensures ScanExponent("e" + e) == (1 + |e|, NumeralValue(e, false))
  {
    var t := "e" + e;
    assert t[0] == 'e' && t[1] == e[0] && IsDigit(e[0]);
    assert t[1..] == e;
    LeadingDigits(e, "");
  }

  /** Scanning a run of decimal digits consumes it all and yields its value. */
  lemma ScanDigits(s: string)
    requires |s| > 0 && AllDigits(s)
    ensures ScanDecimal(s) == (|s|, NumeralValue(s, false) as real)
  {
    assert s + "" == s;
    LeadingOf(s, "", Decimal);
    assert s[|s|..] == "";
    assert ScanExponent("") == (0, 0);
    assert DecimalValue(s, "") == NumeralValue(s, false) as real;
  }

  lemma Numeral3124()
    ensures NumeralValue("3124", false) == 3124 && NumeralValue("5678", false) == 5678
  {
    assert "3124" == "312" + ['4'] && "312" == "31" + ['2'] && "31" == "3" + ['1'];
    NumeralSnoc("312", '4', false);
    NumeralSnoc("31", '2', false);
    NumeralSnoc("3", '1', false);
    NumeralSingle('3', false);
    assert "5678" == "567" + ['8'] && "567" == "56" + ['7'] && "56" == "5" + ['6'];
    NumeralSnoc("567", '8', false);
    NumeralSnoc("56", '7', false);
    NumeralSnoc("5", '6', false);
    NumeralSingle('5', false);
  }

  /** The digits `3124` and `5678` spell 3124.5678. */
  lemma DecimalValueExample()
    ensures DecimalValue("3124", "5678") == 3124.5678
  {
    Numeral3124();
    assert Pow10(4) == 10000;
  }
}
