/** A user function of the Basic dialect: its name, the subroutine it starts
    at, its parameters with their defaults, and the bookkeeping of the
    temporary variables its code reserves. */
module FunctionDefinitions {
  import opened Common
  import opened ExpressionTypes

  /** A parameter default: the number its text reads as, or a text. */
  datatype DefaultValue = NumberDefault(value: Decimal) | TextDefault(text: string)

  // ----------------------------------------------- numbers in declarators

  /** Digits with at most one '.', and at least one digit. */
  predicate IsMantissa(s: string)
  {
    var d := IndexOf(s, '.');
    if d < 0 then s != [] && AllDigits(s)
    else |s| > 1 && AllDigits(s[..d]) && AllDigits(s[d + 1..])
  }

  /** Digits, possibly after one sign. */
  predicate IsSignedDigits(s: string)
  {
    if s != [] && (s[0] == '+' || s[0] == '-') then s[1..] != [] && AllDigits(s[1..])
    else s != [] && AllDigits(s)
  }

  /** The texts double.TryParse accepts with the float number style: blanks
      around, a sign, a mantissa and an optional exponent. */
  predicate IsFloatText(v: string)
  {
    var (_, mantissa, exponent) := FloatParts(v);
    IsMantissa(mantissa) && (exponent.None? || IsSignedDigits(exponent.value))
  }

  /** A text cut at its blanks, its sign and its first 'E' (in either
      case): whether it is negative, the mantissa, and the exponent if
      there is one. */
  function FloatParts(v: string): (bool, string, Option<string>)
  {
    var t := NumberTrim(v);
    var u := if t != [] && (t[0] == '+' || t[0] == '-') then t[1..] else t;
    var e := IndexOf(Upper(u), 'E');
    (t != [] && t[0] == '-', if e < 0 then u else u[..e], if e < 0 then None else Some(u[e + 1..]))
  }

  // ------------------------------------------------- the value of a number

  /** An exact decimal number: digits * 10^exponent, negated when negative. */
  datatype Decimal = Decimal(negative: bool, digits: nat, exponent: int)

  const ZERO := Decimal(false, 0, 0)

  function Pow10(e: int): (p: real)
    ensures p > 0.0
    decreases if e < 0 then -e else e
  {
    if e == 0 then 1.0 else if e > 0 then 10.0 * Pow10(e - 1) else Pow10(e + 1) / 10.0
  }

  lemma Pow10Step(e: int)
    ensures Pow10(e + 1) == 10.0 * Pow10(e)
  {
  }

  /** The real number a decimal denotes. */
  function Value(d: Decimal): real
  {
    var magnitude := d.digits as real * Pow10(d.exponent);
    if d.negative then -magnitude else magnitude
  }

  /** The value of an optional sign followed by digits. */
  function SignedValue(s: string): int
    requires IsSignedDigits(s)
  {
    if s[0] == '-' then 0 - DigitsValue(s[1..])
    else if s[0] == '+' then DigitsValue(s[1..])
    else DigitsValue(s)
  }

  lemma {:induction false} AllDigitsJoin(a: string, b: string)
    requires AllDigits(a) && AllDigits(b)
    ensures AllDigits(a + b)
  {
    forall i | 0 <= i < |a + b|
      ensures IsDigit((a + b)[i])
    {
      if i >= |a| {
        assert (a + b)[i] == b[i - |a|];
      }
    }
  }

  /** A mantissa as a decimal: all its digits, scaled down by the number of
      digits after the point. */
  function MantissaValue(s: string): (d: Decimal)
    requires IsMantissa(s)
    ensures !d.negative
  {
    var p := IndexOf(s, '.');
    if p < 0 then Decimal(false, DigitsValue(s), 0)
    else
      AllDigitsJoin(s[..p], s[p + 1..]);
      Decimal(false, DigitsValue(s[..p] + s[p + 1..]), 0 - (|s| - p - 1))
  }

  /** The number double.TryParse reads from a text IsFloatText accepts,
      before any rounding to a double. */
  function FloatValue(v: string): (d: Decimal)
    requires IsFloatText(v)
    ensures d.negative <==> NumberTrim(v) != [] && NumberTrim(v)[0] == '-'
  {
    var (negative, mantissa, exponent) := FloatParts(v);
    var m := MantissaValue(mantissa);
    var x := if exponent.None? then 0 else SignedValue(exponent.value);
    Decimal(negative, m.digits, m.exponent + x)
  }

  // ------------------------------------------------- printing a number

  /** The same number with the trailing zeros of its digits moved into the
      exponent. */
  function Normal(d: Decimal): (r: Decimal)
    ensures r.negative == d.negative
    ensures r.digits == 0 || r.digits % 10 != 0
    ensures r.digits == 0 <==> d.digits == 0
    decreases d.digits
  {
    if d.digits > 0 && d.digits % 10 == 0 then Normal(Decimal(d.negative, d.digits / 10, d.exponent + 1))
    else d
  }

  lemma ScaleByTen(q: real, p: real)
    ensures q * (10.0 * p) == (10.0 * q) * p
  {
  }

  /** Moving a factor of ten from the digits into the exponent keeps the value. */
  lemma ShiftTen(negative: bool, q: nat, e: int)
    ensures Value(Decimal(negative, 10 * q, e)) == Value(Decimal(negative, q, e + 1))
  {
    var p := Pow10(e);
    Pow10Step(e);
    assert (10 * q) as real == 10.0 * q as real;
    ScaleByTen(q as real, p);
  }

  lemma {:induction false} NormalValue(d: Decimal)
    ensures Value(Normal(d)) == Value(d)
    decreases d.digits
  {
    if d.digits > 0 && d.digits % 10 == 0 {
      var q := d.digits / 10;
      NormalValue(Decimal(d.negative, q, d.exponent + 1));
      ShiftTen(d.negative, q, d.exponent);
      assert d == Decimal(d.negative, 10 * q, d.exponent);
    }
  }

  function Zeros(k: nat): (s: string)
    ensures |s| == k && AllDigits(s)
    ensures forall i :: 0 <= i < k ==> s[i] == '0'
  {
    seq(k, _ => '0')
  }

  /** A nonzero number without trailing zeros in plain notation: its
      digits followed by as many zeros as the exponent says, or with a
      point inserted, or after "0." and leading zeros. */
  function PlainText(digits: string, exponent: int): (s: string)
  {
    if exponent >= 0 then digits + Zeros(exponent)
    else if |digits| > -exponent then digits[..|digits| + exponent] + "." + digits[|digits| + exponent..]
    else "0." + Zeros(-exponent - |digits|) + digits
  }

  /** The default of a numeric parameter as the compiler writes it into the
      code: the number printed in plain notation (ToString on the double),
      "-" in front of a negative nonzero number, and ".0" appended when the
      text has no point. */
  function NumberLiteral(d: Decimal): (s: string)
  {
    var n := Normal(d);
    if n.digits == 0 then "0.0" else SignedLiteral(n.negative, NatToString(n.digits), n.exponent)
  }

  /** Digits and an exponent in plain notation, signed, with a point. */
  function SignedLiteral(negative: bool, digits: string, exponent: int): string
  {
    var plain := PlainText(digits, exponent);
    var signed := if negative then "-" + plain else plain;
    if '.' in signed then signed else signed + ".0"
  }

  // -------------------------------------------- the literal reads back

  /** Digits and points only. */
  predicate NumeralChars(u: string)
  {
    forall i :: 0 <= i < |u| ==> IsDigit(u[i]) || u[i] == '.'
  }

  lemma {:induction false} NumeralUpper(u: string)
    requires NumeralChars(u)
    ensures Upper(u) == u && 'E' !in u
  {
  }

  lemma {:induction false} DigitsAppendZero(x: string)
    requires AllDigits(x)
    ensures AllDigits(x + "0") && DigitsValue(x + "0") == 10 * DigitsValue(x)
  {
    AllDigitsJoin(x, "0");
    assert (x + "0")[..|x|] == x;
  }

  /** 10^k. */
  function Ten(k: nat): (p: nat)
    ensures p >= 1
  {
    if k == 0 then 1 else 10 * Ten(k - 1)
  }

  lemma {:induction false} DigitsZerosAfter(x: string, k: nat)
    requires AllDigits(x)
    ensures AllDigits(x + Zeros(k))
    ensures DigitsValue(x + Zeros(k)) == DigitsValue(x) * Ten(k)
  {
    AllDigitsJoin(x, Zeros(k));
    if k > 0 {
      DigitsZerosAfter(x, k - 1);
      assert x + Zeros(k) == (x + Zeros(k - 1)) + "0";
      DigitsAppendZero(x + Zeros(k - 1));
      TenStep(DigitsValue(x), k);
    } else {
      assert x + Zeros(0) == x;
    }
  }

  lemma TenStep(m: nat, k: nat)
    requires k > 0
    ensures m * Ten(k) == 10 * (m * Ten(k - 1))
  {
  }

  lemma {:induction false} ZerosValue(k: nat)
    ensures DigitsValue(Zeros(k)) == 0
  {
    if k > 0 {
      assert Zeros(k)[..k - 1] == Zeros(k - 1);
      ZerosValue(k - 1);
    }
  }

  lemma {:induction false} DigitsZerosBefore(k: nat, x: string)
    requires AllDigits(x)
    ensures AllDigits(Zeros(k) + x) && DigitsValue(Zeros(k) + x) == DigitsValue(x)
  {
    AllDigitsJoin(Zeros(k), x);
    if x == [] {
      assert Zeros(k) + x == Zeros(k);
      ZerosValue(k);
    } else {
      var y := x[..|x| - 1];
      assert (Zeros(k) + x)[..|Zeros(k) + x| - 1] == Zeros(k) + y;
      DigitsZerosBefore(k, y);
    }
  }

  /** The printed number before its sign. */
  function UnsignedLiteral(s: string, exponent: int): string
  {
    PlainText(s, exponent) + (if exponent >= 0 then ".0" else "")
  }

  lemma NoPointInDigits(x: string)
    requires AllDigits(x)
    ensures '.' !in x
  {
  }

  /** Digits with zeros and ".0" after them read back as the digits times
      a power of ten, one place too far and scaled down once. */
  lemma {:induction false} WholeReadsBack(s: string, e: nat)
    requires s != [] && AllDigits(s)
    ensures var u := UnsignedLiteral(s, e);
      NumeralChars(u) && IsMantissa(u) && u != [] && IsDigit(u[0]) && IsDigit(u[|u| - 1]) && '.' !in PlainText(s, e)
      && MantissaValue(u) == Decimal(false, DigitsValue(s) * Ten(e + 1), -1)
  {
    var w := s + Zeros(e);
    AllDigitsJoin(s, Zeros(e));
    NoPointInDigits(w);
    assert PlainText(s, e) == w;
    assert UnsignedLiteral(s, e) == w + "." + "0";
    PointBetween(w, "0");
    DigitsZerosAfter(s, e);
    DigitsAppendZero(w);
    TenStep(DigitsValue(s), e + 1);
  }

  lemma {:induction false} NumeralJoin(a: string, b: string)
    requires NumeralChars(a) && NumeralChars(b)
    ensures NumeralChars(a + b)
  {
    forall i | 0 <= i < |a + b|
      ensures IsDigit((a + b)[i]) || (a + b)[i] == '.'
    {
      if i >= |a| {
        assert (a + b)[i] == b[i - |a|];
      }
    }
  }

  /** Digits a, a point and digits b: a mantissa whose digits are a + b. */
  lemma {:induction false} PointBetween(a: string, b: string)
    requires a != [] && b != [] && AllDigits(a) && AllDigits(b)
    ensures var u := a + "." + b;
      NumeralChars(u) && IsMantissa(u) && '.' in u && IsDigit(u[0]) && IsDigit(u[|u| - 1])
      && MantissaValue(u) == Decimal(false, DigitsValue(a + b), 0 - |b|)
  {
    var u := a + "." + b;
    NumeralJoin(a, ".");
    NumeralJoin(a + ".", b);
    assert u[|a|] == '.';
    assert u[..|a|] == a;
    assert u[|a| + 1..] == b;
    NoPointInDigits(a);
    IndexOfAt(u, '.', |a|);
    var d := IndexOf(u, '.');
    assert d == |a| && |u| > 1;
    assert AllDigits(u[..d]) && AllDigits(u[d + 1..]);
    AllDigitsJoin(a, b);
  }

  /** Digits with a point inside read back as the digits scaled down. */
  lemma {:induction false} PointedReadsBack(s: string, e: int)
    requires s != [] && AllDigits(s) && e < 0 && |s| > -e
    ensures var u := UnsignedLiteral(s, e);
      NumeralChars(u) && IsMantissa(u) && IsDigit(u[0]) && IsDigit(u[|u| - 1]) && '.' in PlainText(s, e)
      && MantissaValue(u) == Decimal(false, DigitsValue(s), e)
  {
    var k := |s| + e;
    var a, b := s[..k], s[k..];
    assert UnsignedLiteral(s, e) == a + "." + b;
    assert a + b == s;
    PointBetween(a, b);
  }

  lemma {:induction false} FractionText(s: string, e: int)
    requires e < 0 && |s| <= -e
    ensures UnsignedLiteral(s, e) == "0" + "." + (Zeros(-e - |s|) + s)
  {
    var z := -e - |s|;
    assert PlainText(s, e) == "0." + Zeros(z) + s;
    assert UnsignedLiteral(s, e) == PlainText(s, e) + "";
  }

  lemma {:induction false} ZerosInFront(z: nat, s: string)
    requires AllDigits(s)
    ensures AllDigits("0" + (Zeros(z) + s)) && DigitsValue("0" + (Zeros(z) + s)) == DigitsValue(s)
  {
    assert "0" + (Zeros(z) + s) == Zeros(z + 1) + s;
    DigitsZerosBefore(z + 1, s);
  }

  /** Digits after "0." and zeros read back as the digits scaled down. */
  lemma {:induction false} FractionReadsBack(s: string, e: int)
    requires s != [] && AllDigits(s) && e < 0 && |s| <= -e
    ensures var u := UnsignedLiteral(s, e);
      NumeralChars(u) && IsMantissa(u) && IsDigit(u[0]) && IsDigit(u[|u| - 1]) && '.' in PlainText(s, e)
      && MantissaValue(u) == Decimal(false, DigitsValue(s), e)
  {
    var b := Zeros(-e - |s|) + s;
    AllDigitsJoin(Zeros(-e - |s|), s);
    FractionText(s, e);
    PointBetween("0", b);
    ZerosInFront(-e - |s|, s);
  }

  /** Zero is written "0.0". */
  lemma ZeroReadsBack()
    ensures IsFloatText("0.0") && FloatValue("0.0") == Decimal(false, 0, -1)
  {
    PointBetween("0", "0");
    assert "0" + "." + "0" == "0.0";
    PlainParts(false, "0.0");
  }

  /** A signed plain numeral reads back as its sign and value. */
  lemma {:induction false} SignedReadsBack(negative: bool, u: string)
    requires NumeralChars(u) && IsMantissa(u)
    requires u != [] && IsDigit(u[0]) && IsDigit(u[|u| - 1])
    ensures var lit := if negative then "-" + u else u;
      IsFloatText(lit) && FloatValue(lit) == Decimal(negative, MantissaValue(u).digits, MantissaValue(u).exponent)
  {
    PlainParts(negative, u);
  }

  /** A signed plain numeral is cut into its sign and itself, with no
      exponent. */
  lemma PlainParts(negative: bool, u: string)
    requires NumeralChars(u) && u != [] && IsDigit(u[0]) && IsDigit(u[|u| - 1])
    ensures FloatParts(if negative then "-" + u else u) == (negative, u, None)
  {
    var lit := if negative then "-" + u else u;
    NumberTrimOfTrimmed(lit);
    assert (if negative then lit[1..] else lit) == u;
    NumeralUpper(u);
    assert IndexOf(Upper(u), 'E') == -1;
  }

  /** Moving k trailing zeros of the digits into the exponent. */
  lemma {:induction false} NormalShift(negative: bool, m: nat, k: nat, e: int)
    requires m % 10 != 0
    ensures Normal(Decimal(negative, m * Ten(k), e - k)) == Decimal(negative, m, e)
  {
    if k > 0 {
      TenStep(m, k);
      var q := m * Ten(k - 1);
      assert (10 * q) / 10 == q && (10 * q) % 10 == 0;
      NormalShift(negative, m, k - 1, e);
    }
  }

  /** The signed literal reads as the sign and the value of its unsigned
      part. */
  lemma {:induction false} SignedLiteralReads(negative: bool, s: string, e: int)
    requires var u := UnsignedLiteral(s, e);
      NumeralChars(u) && IsMantissa(u) && u != [] && IsDigit(u[0]) && IsDigit(u[|u| - 1])
      && ('.' in PlainText(s, e) <==> e < 0)
    ensures var u := UnsignedLiteral(s, e);
      IsFloatText(SignedLiteral(negative, s, e)) && '.' in SignedLiteral(negative, s, e)
      && FloatValue(SignedLiteral(negative, s, e)) == Decimal(negative, MantissaValue(u).digits, MantissaValue(u).exponent)
  {
    var u := UnsignedLiteral(s, e);
    SignedLiteralShape(negative, s, e);
    SignedReadsBack(negative, u);
    assert '.' in u;
    SignedPoint(negative, u);
  }

  /** A sign in front keeps the point of a numeral. */
  lemma SignedPoint(negative: bool, u: string)
    requires '.' in u
    ensures '.' in (if negative then "-" + u else u)
  {
    var p := IndexOf(u, '.');
    assert p >= 0;
    if negative { assert ("-" + u)[p + 1] == '.'; }
  }

  /** A nonzero number without trailing zeros, in plain notation, reads
      back as the same sign, digits and exponent. */
  lemma {:induction false} PlainReadsBack(negative: bool, s: string, e: int)
    requires s != [] && AllDigits(s) && DigitsValue(s) % 10 != 0
    ensures IsFloatText(SignedLiteral(negative, s, e)) && '.' in SignedLiteral(negative, s, e)
    ensures Normal(FloatValue(SignedLiteral(negative, s, e))) == Decimal(negative, DigitsValue(s), e)
  {
    if e >= 0 {
      WholeReadsBack(s, e);
      SignedLiteralReads(negative, s, e);
      NormalShift(negative, DigitsValue(s), e + 1, e);
    } else if |s| > -e {
      PointedReadsBack(s, e);
      SignedLiteralReads(negative, s, e);
    } else {
      FractionReadsBack(s, e);
      SignedLiteralReads(negative, s, e);
    }
  }

  lemma {:induction false} SignedLiteralShape(negative: bool, s: string, e: int)
    requires '.' in PlainText(s, e) <==> e < 0
    ensures SignedLiteral(negative, s, e) == if negative then "-" + UnsignedLiteral(s, e) else UnsignedLiteral(s, e)
  {
    var plain := PlainText(s, e);
    var signed := if negative then "-" + plain else plain;
    assert '.' in signed <==> '.' in plain by {
      if negative {
        assert signed[1..] == plain;
        if '.' in signed {
          var i :| 0 <= i < |signed| && signed[i] == '.';
          assert i > 0 && plain[i - 1] == '.';
        }
        if '.' in plain {
          var i :| 0 <= i < |plain| && plain[i] == '.';
          assert signed[i + 1] == '.';
        }
      }
    }
    if e < 0 {
      assert UnsignedLiteral(s, e) == plain + "";
    }
  }

  /** The literal a numeric default is written as has a point, reads as a
      number itself, and that number has the default's sign, digits and
      exponent once trailing zeros are dropped: the same number. Zero, of
      either sign, is written as the positive zero. */
  lemma {:induction false} LiteralReadsBack(d: Decimal)
    ensures IsFloatText(NumberLiteral(d)) && '.' in NumberLiteral(d)
    ensures d.digits != 0 ==> Normal(FloatValue(NumberLiteral(d))) == Normal(d)
    ensures d.digits == 0 ==> NumberLiteral(d) == "0.0" && FloatValue(NumberLiteral(d)).digits == 0
  {
    var n := Normal(d);
    if n.digits == 0 {
      ZeroReadsBack();
    } else {
      var s := NatToString(n.digits);
      DigitsOfNat(n.digits);
      PlainReadsBack(n.negative, s, n.exponent);
    }
  }

  /** Hence the literal denotes the default's number. */
  lemma {:induction false} LiteralValue(d: Decimal)
    ensures IsFloatText(NumberLiteral(d)) && Value(FloatValue(NumberLiteral(d))) == Value(d)
  {
    LiteralReadsBack(d);
    var r := FloatValue(NumberLiteral(d));
    NormalValue(d);
    NormalValue(r);
    if d.digits == 0 {
      ZeroValue(d);
      ZeroValue(r);
    }
  }

  /** No digits, of either sign and at any exponent, is the number 0. */
  lemma ZeroValue(d: Decimal)
    requires d.digits == 0
    ensures Value(d) == 0.0
  {
    assert d.digits as real == 0.0;
  }

  /** Defaults written with an exponent, a plus sign or trailing zeros
      are printed as their number. */
  lemma LiteralExamples()
    ensures NumberLiteral(Decimal(false, 1, 3)) == "1000.0"
    ensures NumberLiteral(Decimal(false, 5, 0)) == "5.0"
  {
    assert Normal(Decimal(false, 1, 3)) == Decimal(false, 1, 3);
  }

  lemma FractionLiteralExamples()
    ensures NumberLiteral(Decimal(false, 150, -2)) == "1.5"
    ensures NumberLiteral(Decimal(true, 25, -3)) == "-0.025"
  {
    assert Normal(Decimal(false, 150, -2)) == Decimal(false, 15, -1);
    assert NatToString(15) == "15";
    assert NatToString(25) == "25";
  }

  // ------------------------------------------------ parameter declarators

  const DECLARATOR_SEPARATORS: set<char> := {' ', '\t', ','}

  /** The name a part of a declarator declares: the text before a colon
      that is not the first character, or the whole part, upper-cased. */
  function ParamName(part: string): (n: string)
  {
    var colon := IndexOf(part, ':');
    if colon > 0 then Upper(part[..colon]) else Upper(part)
  }

  /** The default a part of a declarator gives: the text after the colon,
      as a number when it reads as one, and the number 0 without a colon. */
  function ParamDefault(part: string): (d: DefaultValue)
  {
    var colon := IndexOf(part, ':');
    if colon > 0 then
      var v := part[colon + 1..];
      if IsFloatText(v) then NumberDefault(FloatValue(v)) else TextDefault(v)
    else NumberDefault(ZERO)
  }

  /** A part "n:v" declares n, upper-cased, with default v. */
  lemma DeclaredParameter(n: string, v: string)
    requires n != [] && ':' !in n
    ensures ParamName(n + ":" + v) == Upper(n)
    ensures ParamDefault(n + ":" + v) == if IsFloatText(v) then NumberDefault(FloatValue(v)) else TextDefault(v)
  {
    var part := n + ":" + v;
    assert part[|n|] == ':' && part[..|n|] == n && part[|n| + 1..] == v;
    assert ':' !in part[..|n|];
  }

  /** A part without a colon declares itself, upper-cased, with default 0. */
  lemma UndefaultedParameter(n: string)
    requires ':' !in n
    ensures ParamName(n) == Upper(n) && ParamDefault(n) == NumberDefault(ZERO)
  {
  }

  /** Declared names never contain lower-case letters. */
  lemma ParamNameUpper(part: string)
    ensures forall i :: 0 <= i < |ParamName(part)| ==> !IsLower(ParamName(part)[i])
  {
  }

  /** The variable-name prefix of a type: 'F' for numbers, 'S' otherwise. */
  function TypePrefix(t: ExpressionType): char
  {
    if t == Number then 'F' else 'S'
  }

  /** The temporaries prefix + "0", ..., prefix + (n - 1). */
  function Temporaries(prefix: string, n: int): (r: seq<string>)
    ensures n >= 0 ==> |r| == n
    ensures forall i :: 0 <= i < |r| ==> r[i] == prefix + IntToString(i)
  {
    if n <= 0 then [] else seq(n, i => prefix + IntToString(i))
  }

  /** The loop that appends the names of the first n temporaries. */
  method AppendTemporaries(start: seq<string>, prefix: string, n: int) returns (l: seq<string>)
    ensures l == start + Temporaries(prefix, n)
  {
    l := start;
    var i := 0;
    while i < n
      invariant 0 <= i && (n >= 0 ==> i <= n) && (n < 0 ==> i == 0)
      invariant l == start + Temporaries(prefix, i)
    {
      TemporariesSnoc(prefix, i);
      l := l + [prefix + IntToString(i)];
      i := i + 1;
    }
    if n < 0 {
      assert Temporaries(prefix, n) == [] == Temporaries(prefix, 0);
    }
  }

  lemma TemporariesSnoc(prefix: string, i: nat)
    ensures Temporaries(prefix, i + 1) == Temporaries(prefix, i) + [prefix + IntToString(i)]
  {
  }

  /** prefix + name for each parameter from index i on whose default makes
      it of type t, in order. */
  function ParameterVariables(names: seq<string>, defaults: seq<DefaultValue>, t: ExpressionType, prefix: string, i: nat): (r: seq<string>)
    requires |names| == |defaults| && i <= |names|
    ensures forall v :: v in r ==> exists k :: i <= k < |names| && v == prefix + names[k] && TypeOfDefault(defaults[k]) == t
    decreases |names| - i
  {
    if i == |names| then []
    else if TypeOfDefault(defaults[i]) == t then [prefix + names[i]] + ParameterVariables(names, defaults, t, prefix, i + 1)
    else ParameterVariables(names, defaults, t, prefix, i + 1)
  }

  /** A parameter is a Text exactly when its default is a string. */
  function TypeOfDefault(d: DefaultValue): (t: ExpressionType)
    ensures t == Text <==> d.TextDefault?
    ensures t == Number <==> d.NumberDefault?
  {
    if d.TextDefault? then Text else Number
  }

  class FunctionDefinition {
    const fname: string
    const startsub: string
    const paramnames: seq<string>
    const defaultvalues: seq<DefaultValue>
    var reservedtemporaries: map<ExpressionType, int>
    var maxreservedtemporaries: map<ExpressionType, int>
    var returnType: ExpressionType

    /** Both counters know the same types, and no count exceeds its maximum. */
    ghost predicate Valid()
      reads this
    {
      |paramnames| == |defaultvalues|
      && reservedtemporaries.Keys == maxreservedtemporaries.Keys
      && forall t :: t in reservedtemporaries ==> reservedtemporaries[t] <= maxreservedtemporaries[t] && 0 <= maxreservedtemporaries[t]
    }

    /** Every definition comes from make, which pairs each name with its
        default. */
    constructor (fname: string, startsub: string, paramnames: seq<string>, defaultvalues: seq<DefaultValue>)
      requires |paramnames| == |defaultvalues|
      ensures Valid()
      ensures this.fname == fname && this.startsub == startsub
      ensures this.paramnames == paramnames && this.defaultvalues == defaultvalues
      ensures reservedtemporaries == map[] && maxreservedtemporaries == map[] && returnType == Void
    {
      this.fname := fname;
      this.startsub := startsub;
      this.paramnames := paramnames;
      this.defaultvalues := defaultvalues;
      reservedtemporaries := map[];
      maxreservedtemporaries := map[];
      returnType := Void;
    }

    /** The least index of a parameter called name, or -1. */
    method FindParameter(name: string) returns (r: int)
      ensures -1 <= r < |paramnames|
      ensures r >= 0 ==> paramnames[r] == name && name !in paramnames[..r]
      ensures r == -1 <==> name !in paramnames
    {
      var i := 0;
      while i < |paramnames|
        invariant 0 <= i <= |paramnames| && name !in paramnames[..i]
      {
        if paramnames[i] == name {
          return i;
        }
        assert paramnames[..i + 1] == paramnames[..i] + [paramnames[i]];
        i := i + 1;
      }
      assert paramnames[..i] == paramnames;
      return -1;
    }

    function GetParameterType(index: nat): (t: ExpressionType)
      requires index < |defaultvalues|
      ensures t == Text <==> defaultvalues[index].TextDefault?
      ensures t == Number <==> defaultvalues[index].NumberDefault?
    {
      TypeOfDefault(defaultvalues[index])
    }

    /** The variable holding a parameter: F or S by its type, the function
        name, a dot and the parameter name. */
    function GetParameterVariable(index: nat): (v: string)
      requires index < |defaultvalues| && index < |paramnames|
      ensures |v| > 0 && v[0] == (if defaultvalues[index].TextDefault? then 'S' else 'F')
      ensures v[1..] == fname + "." + paramnames[index]
    {
      [TypePrefix(GetParameterType(index))] + fname + "." + paramnames[index]
    }

    /** The literal that supplies a missing argument: a text default in
        quotes, a number printed as ToString prints it, with ".0" added when
        that has no point. The number literal reads back as the default's
        number. */
    function GetParameterDefaultLiteral(index: nat): (s: string)
      requires index < |defaultvalues|
      ensures defaultvalues[index].TextDefault? ==> s == "'" + defaultvalues[index].text + "'"
      ensures defaultvalues[index].NumberDefault? ==>
        '.' in s && IsFloatText(s) && Value(FloatValue(s)) == Value(defaultvalues[index].value)
    {
      match defaultvalues[index]
      case TextDefault(v) => "'" + v + "'"
      case NumberDefault(v) =>
        LiteralReadsBack(v);
        LiteralValue(v);
        NumberLiteral(v)
    }

    method SetReturnType(t: ExpressionType)
      modifies this`returnType
      ensures returnType == t
    {
      returnType := t;
    }

    /** The variable holding the result: F or S by the return type followed
        by the function name and a dot, and "" for other types. */
    function GetReturnVariable(): (v: string)
      reads this
      ensures returnType == Number ==> v == "F" + fname + "."
      ensures returnType == Text ==> v == "S" + fname + "."
      ensures returnType != Number && returnType != Text ==> v == ""
    {
      if returnType == Number then "F" + fname + "."
      else if returnType == Text then "S" + fname + "."
      else ""
    }

    /** How many temporaries of a type are reserved now. */
    function Reserved(t: ExpressionType): int
      reads this
    {
      if t in reservedtemporaries then reservedtemporaries[t] else 0
    }

    /** The most temporaries of a type ever reserved at once; 0 for a type
        never reserved. */
    function GetMaxReserved(t: ExpressionType): (n: int)
      reads this
      requires Valid()
      ensures n >= 0 && n >= Reserved(t)
      ensures t !in maxreservedtemporaries ==> n == 0
    {
      if t in maxreservedtemporaries then maxreservedtemporaries[t] else 0
    }

    /** Reserves the next temporary of a type: the count goes up by one, the
        maximum follows it, and the name is F or S, the function name, a dot
        and the old count. Arrays and Void get no name. */
    method ReserveVariable(t: ExpressionType) returns (v: Option<string>)
      requires Valid()
      modifies this`reservedtemporaries, this`maxreservedtemporaries
      ensures Valid()
      ensures reservedtemporaries == old(reservedtemporaries)[t := old(Reserved(t)) + 1]
      ensures maxreservedtemporaries == old(maxreservedtemporaries)[t := Max(old(GetMaxReserved(t)), old(Reserved(t)) + 1)]
      ensures t == Number ==> v == Some("F" + fname + "." + IntToString(old(Reserved(t))))
      ensures t == Text ==> v == Some("S" + fname + "." + IntToString(old(Reserved(t))))
      ensures t != Number && t != Text ==> v == None
    {
      ghost var count, max := Reserved(t), GetMaxReserved(t);
      if t !in reservedtemporaries {
        reservedtemporaries := reservedtemporaries[t := 0];
        maxreservedtemporaries := maxreservedtemporaries[t := 0];
      }
      var n := reservedtemporaries[t] + 1;
      reservedtemporaries := reservedtemporaries[t := n];
      maxreservedtemporaries := maxreservedtemporaries[t := Max(n, maxreservedtemporaries[t])];
      if t == Number {
        v := Some("F" + fname + "." + IntToString(n - 1));
      } else if t == Text {
        v := Some("S" + fname + "." + IntToString(n - 1));
      } else {
        v := None;
      }
    }

    /** Gives the most recent temporary of a type back; the maximum stays.
        Releasing a type never reserved fails on the missing entry. */
    method ReleaseVariable(t: ExpressionType) returns (r: Result<()>)
      requires Valid()
      modifies this`reservedtemporaries
      ensures Valid() && maxreservedtemporaries == old(maxreservedtemporaries)
      ensures t in old(reservedtemporaries) ==> r.Ok? && reservedtemporaries == old(reservedtemporaries)[t := old(Reserved(t)) - 1]
      ensures t !in old(reservedtemporaries) ==> r.Err? && reservedtemporaries == old(reservedtemporaries)
    {
      if t !in reservedtemporaries {
        return Err("The given key was not present in the dictionary.");
      }
      reservedtemporaries := reservedtemporaries[t := reservedtemporaries[t] - 1];
      r := Ok(());
    }

    /** Every local of a type: the return variable when the function returns
        that type, the parameters of that type, and every temporary ever
        reserved. */
    function AllLocals(t: ExpressionType): seq<string>
      reads this
      requires Valid()
    {
      var prefix := [TypePrefix(t)] + fname + ".";
      (if returnType == t then [prefix] else [])
        + ParameterVariables(paramnames, defaultvalues, t, prefix, 0)
        + Temporaries(prefix, GetMaxReserved(t))
    }

    /** The locals of a type live at this moment: its parameters and the
        temporaries reserved now. */
    function CurrentLocals(t: ExpressionType): seq<string>
      reads this
      requires Valid()
    {
      var prefix := [TypePrefix(t)] + fname + ".";
      ParameterVariables(paramnames, defaultvalues, t, prefix, 0)
        + Temporaries(prefix, Reserved(t))
    }

    method GetAllLocalVariables(t: ExpressionType) returns (l: seq<string>)
      requires Valid()
      ensures l == AllLocals(t)
    {
      var prefix := [TypePrefix(t)] + fname + ".";
      l := [];
      if returnType == t {
        l := l + [prefix];
      }
      var params := CollectParameters(t, prefix);
      l := l + params;
      l := AppendTemporaries(l, prefix, GetMaxReserved(t));
    }

    method GetCurrentLocalVariables(t: ExpressionType) returns (l: seq<string>)
      requires Valid()
      ensures l == CurrentLocals(t)
    {
      var prefix := [TypePrefix(t)] + fname + ".";
      l := CollectParameters(t, prefix);
      if t in reservedtemporaries {
        l := AppendTemporaries(l, prefix, reservedtemporaries[t]);
        assert Reserved(t) == reservedtemporaries[t];
      } else {
        assert Temporaries(prefix, Reserved(t)) == [];
        assert l == l + [];
      }
    }

    /** The loop over the parameters both lists share. */
    method CollectParameters(t: ExpressionType, prefix: string) returns (l: seq<string>)
      requires Valid()
      ensures l == ParameterVariables(paramnames, defaultvalues, t, prefix, 0)
    {
      l := [];
      var i := |paramnames|;
      while i > 0
        invariant 0 <= i <= |paramnames|
        invariant l == ParameterVariables(paramnames, defaultvalues, t, prefix, i)
      {
        i := i - 1;
        if GetParameterType(i) == t {
          l := [prefix + paramnames[i]] + l;
        }
      }
    }

    /** Every live local is among all the locals, provided no more
        temporaries were released than reserved. */
    lemma CurrentAmongAll(t: ExpressionType)
      requires Valid() && Reserved(t) >= 0
      ensures forall v :: v in CurrentLocals(t) ==> v in AllLocals(t)
    {
      var prefix := [TypePrefix(t)] + fname + ".";
      var ps := ParameterVariables(paramnames, defaultvalues, t, prefix, 0);
      var all := AllLocals(t);
      var head := if returnType == t then [prefix] else [];
      assert all == head + ps + Temporaries(prefix, GetMaxReserved(t));
      forall v | v in CurrentLocals(t)
        ensures v in all
      {
        if v !in ps {
          var temps := Temporaries(prefix, Reserved(t));
          var k :| 0 <= k < |temps| && temps[k] == v;
          assert all[|head| + |ps| + k] == v;
        }
      }
    }
  }


  predicate PartParsed(part: string, name: string, default: DefaultValue)
  {
    name == ParamName(part) && default == ParamDefault(part)
  }

  /** One part of a declarator: the name before a colon at index 1 or
      later, and the default after it, or the whole part and the number 0. */
  method ParsePart(part: string) returns (name: string, default: DefaultValue)
    ensures PartParsed(part, name, default)
  {
    var colon := IndexOf(part, ':');
    if colon > 0 {
      var v := part[colon + 1..];
      name := Upper(part[..colon]);
      if IsFloatText(v) {
        default := NumberDefault(FloatValue(v));
      } else {
        default := TextDefault(v);
      }
    } else {
      name := Upper(part);
      default := NumberDefault(ZERO);
    }
  }

  /** The loop over the parts of a declarator. */
  method ParseParts(parlist: seq<string>) returns (names: seq<string>, defaults: seq<DefaultValue>)
    ensures |names| == |parlist| == |defaults|
    ensures forall k :: 0 <= k < |parlist| ==> PartParsed(parlist[k], names[k], defaults[k])
  {
    names := [];
    defaults := [];
    var i := 0;
    while i < |parlist|
      invariant 0 <= i <= |parlist| && |names| == i && |defaults| == i
      invariant forall k :: 0 <= k < i ==> PartParsed(parlist[k], names[k], defaults[k])
    {
      var name, default := ParsePart(parlist[i]);
      names := names + [name];
      defaults := defaults + [default];
      i := i + 1;
    }
  }

  /** The parameter names and defaults a declarator such as "a, b:5 c:x"
      gives, part by part. */
  method Make(fname: string, startsub: string, pardeclarator: string) returns (fd: FunctionDefinition)
    ensures fresh(fd) && fd.Valid()
    ensures fd.fname == fname && fd.startsub == startsub
    ensures var parts := SplitNonEmpty(pardeclarator, DECLARATOR_SEPARATORS);
      && |fd.paramnames| == |parts|
      && (forall i :: 0 <= i < |parts| ==> PartParsed(parts[i], fd.paramnames[i], fd.defaultvalues[i]))
    ensures fd.reservedtemporaries == map[] && fd.returnType == Void
  {
    var parlist := SplitNonEmpty(pardeclarator, DECLARATOR_SEPARATORS);
    var names, defaults := ParseParts(parlist);
    fd := new FunctionDefinition(fname, startsub, names, defaults);
  }
}
