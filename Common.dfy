/** Values and text helpers shared by every part of the model: optional and
    fallible results, bytes and two's-complement words, ASCII characters,
    decimal numerals, and the few string operations of the .NET and C
    libraries that the EV3 tool chain relies on. */
module Common {

  datatype Option<T> = None | Some(value: T)

  /** An operation that either yields a value or fails with the message of the
      exception the source throws. */
  datatype Result<T> = Ok(value: T) | Err(msg: string)

  type byte = x: int | 0 <= x < 256

  /** The message of the IndexOutOfRangeException an array access outside
      the array throws. */
  const ARRAY_INDEX_OUTSIDE := "Index was outside the bounds of the array."

  /** The message of the OverflowException thrown for an array of negative
      size. */
  const ARITHMETIC_OVERFLOW := "Arithmetic operation resulted in an overflow."

  /** Math.Min and Math.Max. */
  function Min(a: int, b: int): int { if a <= b then a else b }
  function Max(a: int, b: int): int { if a >= b then a else b }

  // ---------------------------------------------------------------- words

  const TWO_8: int := 0x100
  const TWO_16: int := 0x1_0000
  const TWO_31: int := 0x8000_0000
  const TWO_32: int := 0x1_0000_0000

  function Pow256(k: nat): (r: int)
    ensures r >= 1
  {
    if k == 0 then 1 else 256 * Pow256(k - 1)
  }

  function Pow2(k: nat): (r: int)
    ensures r >= 1
  {
    if k == 0 then 1 else 2 * Pow2(k - 1)
  }

  /** A value of the C# type int (and of C's int on the targets). */
  predicate IsInt32(x: int) { -TWO_31 <= x < TWO_31 }

  predicate IsInt16(x: int) { -0x8000 <= x < 0x8000 }

  /** What an int-typed C# expression yields for the mathematical value x:
      the unique 32-bit value congruent to x modulo 2^32. */
  function Wrap32(x: int): (r: int)
    ensures IsInt32(r)
    ensures IsInt32(x) ==> r == x
  {
    (x + TWO_31) % TWO_32 - TWO_31
  }

  /** The cast (short) of C#: the 16-bit value congruent to x. */
  function Wrap16(x: int): (r: int)
    ensures IsInt16(r)
    ensures (x - r) % TWO_16 == 0
    ensures IsInt16(x) ==> r == x
  {
    (x + 0x8000) % TWO_16 - 0x8000
  }

  /** The cast (sbyte) of C#: the 8-bit value congruent to x. */
  function Wrap8(x: int): (r: int)
    ensures -128 <= r < 128
    ensures (x - r) % TWO_8 == 0
    ensures -128 <= x < 128 ==> r == x
  {
    (x + 0x80) % TWO_8 - 0x80
  }

  /** Masking a sign-extended byte with 0xff gives the byte back. */
  lemma Wrap8Byte(b: byte)
    ensures Wrap8(b) % 256 == b
  {
  }

  /** (x >> 8k) & 0xff with an arithmetic shift: byte k of the two's
      complement representation of x, least significant first. */
  function ByteOf(x: int, k: nat): byte
    decreases k
  {
    if k == 0 then x % 256 else ByteOf(x / 256, k - 1)
  }

  /** The n least significant bytes of x, least significant first. */
  function LowBytes(x: int, n: nat): (r: seq<byte>)
    ensures |r| == n
    decreases n
    ensures forall k :: 0 <= k < n ==> r[k] == ByteOf(x, k)
  {
    if n == 0 then [] else [x % 256] + LowBytes(x / 256, n - 1)
  }

  lemma ModUnique(x: int, d: int, q: int, r: int)
    requires d > 0 && x == d * q + r && 0 <= r < d
    ensures x % d == r && x / d == q
  {
    var q', r' := x / d, x % d;
    assert x == d * q' + r';
    var k := q - q';
    assert d * k == r' - r;
    if k > 0 {
      MulAtLeast(d, k);
    } else if k < 0 {
      MulAtLeast(d, -k);
    }
  }

  lemma MulAtLeast(d: int, k: int)
    requires d > 0 && k >= 1
    ensures d * k >= d
  {
    assert d * k == d * (k - 1) + d;
  }

  lemma ModSplit(x: int, p: int)
    requires p >= 1
    ensures x % (256 * p) == x % 256 + 256 * ((x / 256) % p)
    ensures x / (256 * p) == (x / 256) / p
  {
    var r, q := x % 256, x / 256;
    var r2, q2 := q % p, q / p;
    assert q == p * q2 + r2;
    assert x == 256 * q + r;
    assert x == (256 * p) * q2 + (256 * r2 + r);
    assert 256 * r2 + r < 256 * p by {
      assert r2 <= p - 1;
      assert 256 * r2 <= 256 * (p - 1);
    }
    ModUnique(x, 256 * p, q2, 256 * r2 + r);
  }

  /** Composing the n low bytes of x gives x modulo 256^n. */
  lemma {:induction false} LowBytesValue(x: int, n: nat)
    ensures LittleEndian(LowBytes(x, n)) == x % Pow256(n)
    decreases n
  {
    if n > 0 {
      LowBytesValue(x / 256, n - 1);
      assert LowBytes(x, n)[1..] == LowBytes(x / 256, n - 1);
      ModSplit(x, Pow256(n - 1));
    }
  }

  /** Unsigned little-endian composition of a byte sequence. */
  function LittleEndian(bs: seq<byte>): (r: int)
    ensures 0 <= r < Pow256(|bs|)
  {
    if bs == [] then 0 else bs[0] + 256 * LittleEndian(bs[1..])
  }

  lemma Wrap32Mod(i: int)
    requires IsInt32(i)
    ensures Wrap32(i % TWO_32) == i
  {
  }

  lemma Wrap16Mod(i: int)
    requires IsInt16(i)
    ensures Wrap16(i % TWO_16) == i
  {
  }

  lemma LittleEndian4(w: seq<byte>)
    requires |w| == 4
    ensures LittleEndian(w) == w[0] as int + 256 * (w[1] as int) + 65536 * (w[2] as int) + 16777216 * (w[3] as int)
  {
    assert LittleEndian(w[3..]) == w[3] as int + 256 * LittleEndian(w[4..]);
    assert LittleEndian(w[2..]) == w[2] as int + 256 * LittleEndian(w[3..]);
    assert LittleEndian(w[1..]) == w[1] as int + 256 * LittleEndian(w[2..]);
  }

  // ----------------------------------------------------------- characters

  predicate IsDigit(c: char) { '0' <= c <= '9' }
  predicate IsUpper(c: char) { 'A' <= c <= 'Z' }
  predicate IsLower(c: char) { 'a' <= c <= 'z' }
  predicate IsLetter(c: char) { IsUpper(c) || IsLower(c) }

  /** The white space number parsing skips around a numeral
      (NumberStyles.AllowLeadingWhite/AllowTrailingWhite), which is also C's
      isspace in the "C" locale: space, and tab through carriage return. */
  predicate IsNumberBlank(c: char) { c == ' ' || c == '\t' || c == '\n' || c == '\r' || c == '\U{B}' || c == '\U{C}' }

  /** Char.IsWhiteSpace, the characters String.Trim strips: the number
      blanks, NEL, no-break space, the Unicode space separators, and the line
      and paragraph separators. */
  predicate IsBlank(c: char)
  {
    || IsNumberBlank(c) || c == '\U{85}' || c == '\U{A0}' || c == '\U{1680}'
    || ('\U{2000}' <= c <= '\U{200A}') || c == '\U{2028}' || c == '\U{2029}'
    || c == '\U{202F}' || c == '\U{205F}' || c == '\U{3000}'
  }

  function UpperChar(c: char): (r: char)
    ensures !IsLower(r)
    ensures IsLower(c) ==> IsUpper(r) && r as int == c as int - 32
    ensures !IsLower(c) ==> r == c
  {
    if IsLower(c) then (c as int - 32) as char else c
  }

  /** ToUpperInvariant on ASCII letters. */
  function Upper(s: string): (r: string)
    ensures |r| == |s|
    ensures forall i :: 0 <= i < |s| ==> r[i] == UpperChar(s[i])
  {
    if s == [] then [] else [UpperChar(s[0])] + Upper(s[1..])
  }

  /** The character a C# cast (char)n yields, for 0 <= n < 65536. A lone
      UTF-16 surrogate has no counterpart among Dafny's characters and becomes
      U+FFFD. */
  function CharOfCode(n: int): char
    requires 0 <= n < TWO_16
  {
    if n < 0xD800 || 0xE000 <= n then n as char else '�'
  }

  /** The 16-bit code of a C# character; characters beyond the Basic
      Multilingual Plane do not occur in C# strings as single units and are
      mapped to U+FFFD. */
  function CodeOf(c: char): (r: int)
    ensures 0 <= r < TWO_16
  {
    if c as int < TWO_16 then c as int else 0xFFFD
  }

  // -------------------------------------------------------------- strings

  predicate StartsWith(s: string, p: string) { |p| <= |s| && s[..|p|] == p }
  predicate EndsWith(s: string, p: string) { |p| <= |s| && s[|s| - |p|..] == p }

  /** The least index of c in s, or -1. */
  function IndexOf(s: string, c: char): (r: int)
    ensures -1 <= r < |s|
    ensures r == -1 <==> c !in s
    ensures r >= 0 ==> s[r] == c && c !in s[..r]
  {
    if s == [] then -1
    else if s[0] == c then 0
    else var k := IndexOf(s[1..], c); if k < 0 then -1 else k + 1
  }

  /** The first occurrence of c is the one with no c before it. */
  lemma IndexOfAt(s: string, c: char, k: nat)
    requires k < |s| && s[k] == c && c !in s[..k]
    ensures IndexOf(s, c) == k
  {
    assert s[..k + 1][k] == c;
  }

  /** The greatest index of c in s, or -1. */
  function LastIndexOf(s: string, c: char): (r: int)
    ensures -1 <= r < |s|
    ensures r >= 0 ==> s[r] == c
    ensures forall k :: r < k < |s| ==> s[k] != c
  {
    if s == [] then -1
    else if s[|s| - 1] == c then |s| - 1
    else LastIndexOf(s[..|s| - 1], c)
  }

  /** The least index at which p occurs in s, or -1. */
  function Find(s: string, p: string): (r: int)
    ensures -1 <= r <= |s|
    ensures r >= 0 ==> StartsWith(s[r..], p)
    ensures r >= 0 ==> forall j :: 0 <= j < r ==> !StartsWith(s[j..], p)
    ensures r == -1 ==> forall j :: 0 <= j <= |s| ==> !StartsWith(s[j..], p)
    decreases |s|
  {
    if StartsWith(s, p) then 0
    else if s == [] then -1
    else
      var k := Find(s[1..], p);
      assert forall j :: 1 <= j <= |s| ==> s[j..] == s[1..][j - 1..];
      if k < 0 then -1 else k + 1
  }

  /** String.TrimStart: the leading blanks dropped. */
  function TrimStart(s: string): (r: string)
    ensures |r| <= |s|
    ensures r == [] || !IsBlank(r[0])
  {
    if s != [] && IsBlank(s[0]) then TrimStart(s[1..]) else s
  }

  /** What TrimStart drops is blank, and what it keeps is a suffix. */
  lemma {:induction false} TrimStartSuffix(s: string)
    ensures var r := TrimStart(s); r == s[|s| - |r|..] && forall i :: 0 <= i < |s| - |r| ==> IsBlank(s[i])
  {
    if s != [] && IsBlank(s[0]) {
      TrimStartSuffix(s[1..]);
    }
  }

  /** String.TrimEnd: the trailing blanks dropped. */
  function TrimEnd(s: string): (r: string)
    ensures |r| <= |s|
    ensures r == [] || (!IsBlank(r[|r| - 1]) && r[0] == s[0])
  {
    if s != [] && IsBlank(s[|s| - 1]) then TrimEnd(s[..|s| - 1]) else s
  }

  /** What TrimEnd drops is blank, and what it keeps is a prefix. */
  lemma {:induction false} TrimEndPrefix(s: string)
    ensures var r := TrimEnd(s); r == s[..|r|] && forall i :: |r| <= i < |s| ==> IsBlank(s[i])
  {
    if s != [] && IsBlank(s[|s| - 1]) {
      TrimEndPrefix(s[..|s| - 1]);
    }
  }

  /** String.Trim: both ends stripped of blanks. */
  function Trim(s: string): (r: string)
    ensures r == [] || (!IsBlank(r[0]) && !IsBlank(r[|r| - 1]))
    ensures |r| <= |s|
  {
    TrimEnd(TrimStart(s))
  }

  lemma TrimOfTrimmed(s: string)
    requires s == [] || (!IsBlank(s[0]) && !IsBlank(s[|s| - 1]))
    ensures Trim(s) == s
  {
  }

  /** The number blanks dropped from the front. */
  function NumberTrimStart(s: string): (r: string)
    ensures |r| <= |s|
    ensures r == [] || !IsNumberBlank(r[0])
  {
    if s != [] && IsNumberBlank(s[0]) then NumberTrimStart(s[1..]) else s
  }

  /** The number blanks dropped from both ends: the text a number parser
      reads the numeral from. */
  function NumberTrim(s: string): (r: string)
    ensures |r| <= |s|
    ensures r == [] || (!IsNumberBlank(r[0]) && !IsNumberBlank(r[|r| - 1]))
    decreases |s|
  {
    if s != [] && IsNumberBlank(s[0]) then NumberTrim(s[1..])
    else if s != [] && IsNumberBlank(s[|s| - 1]) then NumberTrim(s[..|s| - 1])
    else s
  }

  lemma NumberTrimOfTrimmed(s: string)
    requires s == [] || (!IsNumberBlank(s[0]) && !IsNumberBlank(s[|s| - 1]))
    ensures NumberTrim(s) == s
  {
  }

  /** String.Split(separators, RemoveEmptyEntries): the maximal non-empty runs
      of characters outside seps, in order. */
  function SplitNonEmpty(s: string, seps: set<char>): (r: seq<string>)
    ensures forall k :: 0 <= k < |r| ==> r[k] != [] && forall c :: c in r[k] ==> c !in seps
    decreases |s|
  {
    if s == [] then []
    else if s[0] in seps then SplitNonEmpty(s[1..], seps)
    else
      var w := Word(s, seps);
      [w] + SplitNonEmpty(s[|w|..], seps)
  }

  /** The longest prefix of s free of separators. */
  function Word(s: string, seps: set<char>): (w: string)
    ensures |w| <= |s| && w == s[..|w|]
    ensures forall c :: c in w ==> c !in seps
    ensures |w| < |s| ==> s[|w|] in seps
  {
    if s == [] || s[0] in seps then [] else [s[0]] + Word(s[1..], seps)
  }

  /** The parts joined with sep between neighbours. */
  function Join(parts: seq<string>, sep: string): (r: string)
    ensures parts == [] ==> r == []
    ensures |parts| == 1 ==> r == parts[0]
  {
    if parts == [] then []
    else if |parts| == 1 then parts[0]
    else parts[0] + sep + Join(parts[1..], sep)
  }

  // ------------------------------------------------------ decimal numerals

  function DigitChar(d: int): (c: char)
    requires 0 <= d < 10
    ensures IsDigit(c) && c as int - '0' as int == d
  {
    ('0' as int + d) as char
  }

  /** The decimal numeral of n, without leading zeros. */
  function NatToString(n: nat): (s: string)
    ensures |s| >= 1
    ensures forall i :: 0 <= i < |s| ==> IsDigit(s[i])
    ensures |s| > 1 ==> s[0] != '0'
  {
    if n < 10 then [DigitChar(n)] else NatToString(n / 10) + [DigitChar(n % 10)]
  }

  /** Int32.ToString and C's "%d": a '-' in front of negative values. */
  function IntToString(i: int): (s: string)
  {
    if i < 0 then "-" + NatToString(-i) else NatToString(i)
  }

  predicate AllDigits(s: string) { forall i :: 0 <= i < |s| ==> IsDigit(s[i]) }

  /** The value of a string of decimal digits. */
  function DigitsValue(s: string): (n: nat)
    requires AllDigits(s)
  {
    if s == [] then 0 else 10 * DigitsValue(s[..|s| - 1]) + (s[|s| - 1] as int - '0' as int)
  }

  lemma {:induction false} DigitsOfNat(n: nat)
    ensures DigitsValue(NatToString(n)) == n
  {
    if n >= 10 {
      var s := NatToString(n);
      DigitsOfNat(n / 10);
      assert s[..|s| - 1] == NatToString(n / 10);
    }
  }

  /** The value of an optional sign and at least one decimal digit, with
      optional blanks around them (NumberStyles.Integer), before any range
      check. */
  function ParseInteger(s: string): (r: Option<int>)
  {
    var t := NumberTrim(s);
    var neg := |t| > 0 && t[0] == '-';
    var digits := if |t| > 0 && (t[0] == '-' || t[0] == '+') then t[1..] else t;
    if digits == [] || !AllDigits(digits) then None
    else
      var m: int := DigitsValue(digits);
      Some(if neg then 0 - m else m)
  }

  predicate IsInt64(x: int) { -0x8000_0000_0000_0000 <= x < 0x8000_0000_0000_0000 }

  /** Int32.TryParse with NumberStyles.Integer. */
  function ParseInt32(s: string): (r: Option<int>)
    ensures r.Some? <==> ParseInteger(s).Some? && IsInt32(ParseInteger(s).value)
    ensures r.Some? ==> r.value == ParseInteger(s).value
  {
    match ParseInteger(s)
    case Some(v) => if IsInt32(v) then Some(v) else None
    case None => None
  }

  /** Int32.TryParse of an argument's text into a variable, the missing
      argument read as "": the parsed int, or 0 when the text is not one. */
  function ParsedOrZero(s: Option<string>): (v: int)
    ensures IsInt32(v)
    ensures s.Some? && ParseInt32(s.value).Some? ==> v == ParseInt32(s.value).value
    ensures s.None? || ParseInt32(s.value).None? ==> v == 0
  {
    assert ParseInteger("").None? by {
      assert NumberTrim("") == "";
    }
    match ParseInt32(if s.None? then "" else s.value)
    case Some(n) => n
    case None => 0
  }

  /** Int64.TryParse with NumberStyles.Integer. */
  function ParseInt64(s: string): (r: Option<int>)
    ensures r.Some? <==> ParseInteger(s).Some? && IsInt64(ParseInteger(s).value)
    ensures r.Some? ==> r.value == ParseInteger(s).value
  {
    match ParseInteger(s)
    case Some(v) => if IsInt64(v) then Some(v) else None
    case None => None
  }

  /** The decimal text of an integer has no surrounding blanks. */
  lemma {:induction false} IntToStringTrimmed(i: int)
    ensures var s := IntToString(i); s != [] && !IsBlank(s[0]) && !IsBlank(s[|s| - 1]) && Trim(s) == s
  {
    var s := IntToString(i);
    assert s[0] == '-' || IsDigit(s[0]);
    assert IsDigit(s[|s| - 1]);
    TrimOfTrimmed(s);
  }

  lemma {:induction false} ParseIntToString(i: int)
    ensures ParseInteger(IntToString(i)) == Some(i)
  {
    IntToStringTrimmed(i);
    if i < 0 {
      ParseNegative(i);
    } else {
      ParseNatural(i);
    }
  }

  lemma {:induction false} ParseNatural(n: nat)
    ensures ParseInteger(NatToString(n)) == Some(n)
  {
    var s := NatToString(n);
    IntToStringTrimmed(n);
    DigitsOfNat(n);
    assert s[0] != '-' && s[0] != '+';
  }

  lemma {:induction false} ParseNegative(i: int)
    requires i < 0
    ensures ParseInteger(IntToString(i)) == Some(i)
  {
    DigitsOfNat(-i);
    ParseSignedText(IntToString(i), NatToString(-i), -i);
  }

  /** A trimmed "-" followed by digits parses to the negated digit value. */
  lemma ParseSignedText(s: string, d: string, m: nat)
    requires s == "-" + d && d != [] && AllDigits(d) && DigitsValue(d) == m
    ensures ParseInteger(s) == Some(0 - m)
  {
    assert IsDigit(d[|d| - 1]);
    TrimOfTrimmed(s);
    assert s[1..] == d;
  }


}
