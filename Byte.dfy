/** The 8-bit helpers of the runtime library's Byte class: bitwise operations
    on the low byte of a C# int, shifts, and hexadecimal and binary numerals.
    Every argument arrives as a C# int (a Primitive converted to int), so the
    operations see 32-bit two's-complement values. */
module ByteFunctions {
  import opened Common

  /** Digit i of the binary expansion of v (bit i of its two's-complement
      form when v is negative: Dafny's division by 2 is a floor, an
      arithmetic shift). */
  function Digit(v: int, i: nat): (d: int)
    ensures d == 0 || d == 1
    decreases i
  {
    if i == 0 then v % 2 else Digit(v / 2, i - 1)
  }

  /** The low n bits of v, as a number. */
  function Keep(v: int, n: nat): (r: int)
    ensures 0 <= r < Pow2(n)
    decreases n
  {
    if n == 0 then 0 else v % 2 + 2 * Keep(v / 2, n - 1)
  }

  datatype BitOp = AndBits | OrBits | XorBits

  function OpBit(op: BitOp, x: int, y: int): int
  {
    match op
    case AndBits => if x == 1 && y == 1 then 1 else 0
    case OrBits => if x == 1 || y == 1 then 1 else 0
    case XorBits => if x == y then 0 else 1
  }

  /** The low n bits of `a op b`, for C#'s bitwise operators on
      two's-complement values, computed bit by bit. */
  function Bitwise(op: BitOp, a: int, b: int, n: nat): (r: int)
    ensures 0 <= r < Pow2(n)
    decreases n
  {
    if n == 0 then 0 else OpBit(op, a % 2, b % 2) + 2 * Bitwise(op, a / 2, b / 2, n - 1)
  }

  /** `(~v) & 0xff`: the complement of v is -v-1. */
  function Not(v: int): (r: byte)
  {
    (-v - 1) % 256
  }

  /** `(a & b) & 0xff`. */
  function And(a: int, b: int): (r: byte)
  {
    Pow2Eight();
    Bitwise(AndBits, a, b, 8)
  }

  /** `(a | b) & 0xff`. */
  function Or(a: int, b: int): (r: byte)
  {
    Pow2Eight();
    Bitwise(OrBits, a, b, 8)
  }

  /** `(a ^ b) & 0xff`. */
  function Xor(a: int, b: int): (r: byte)
  {
    Pow2Eight();
    Bitwise(XorBits, a, b, 8)
  }

  lemma Pow2Eight()
    ensures Pow2(8) == 256
  {
    assert Pow2(4) == 16;
  }

  /** Each bit of a bitwise result is the operation applied to the operands'
      bits. */
  lemma {:induction false} BitwiseDigit(op: BitOp, a: int, b: int, n: nat, i: nat)
    requires i < n
    ensures Digit(Bitwise(op, a, b, n), i) == OpBit(op, Digit(a, i), Digit(b, i))
    decreases i
  {
    var r := Bitwise(op, a, b, n);
    var rest := Bitwise(op, a / 2, b / 2, n - 1);
    ModUnique(r, 2, rest, OpBit(op, a % 2, b % 2));
    if i > 0 {
      BitwiseDigit(op, a / 2, b / 2, n - 1, i - 1);
    }
  }

  /** Keep does not change the bits it keeps. */
  lemma {:induction false} KeepDigit(v: int, n: nat, i: nat)
    requires i < n
    ensures Digit(Keep(v, n), i) == Digit(v, i)
    decreases i
  {
    ModUnique(Keep(v, n), 2, Keep(v / 2, n - 1), v % 2);
    if i > 0 {
      KeepDigit(v / 2, n - 1, i - 1);
    }
  }

  /** Keeping the low n bits is reduction modulo 2^n. */
  lemma {:induction false} KeepIsMod(v: int, n: nat)
    ensures Keep(v, n) == v % Pow2(n)
    decreases n
  {
    if n > 0 {
      KeepIsMod(v / 2, n - 1);
      var p := Pow2(n - 1);
      var q, r := (v / 2) / p, (v / 2) % p;
      assert v / 2 == p * q + r;
      assert v == 2 * (p * q) + (2 * r + v % 2);
      assert 2 * (p * q) == (2 * p) * q;
      ModUnique(v, 2 * p, q, 2 * r + v % 2);
    }
  }

  /** Two numbers below 2^n with the same n low bits are equal. */
  lemma {:induction false} DigitsDetermine(x: int, y: int, n: nat)
    requires 0 <= x < Pow2(n) && 0 <= y < Pow2(n)
    requires forall i :: 0 <= i < n ==> Digit(x, i) == Digit(y, i)
    ensures x == y
    decreases n
  {
    if n > 0 {
      assert Digit(x, 0) == Digit(y, 0);
      forall i | 0 <= i < n - 1
        ensures Digit(x / 2, i) == Digit(y / 2, i)
      {
        assert Digit(x, i + 1) == Digit(y, i + 1);
      }
      DigitsDetermine(x / 2, y / 2, n - 1);
    }
  }

  /** The bits of -v-1 are the complements of the bits of v. */
  lemma {:induction false} ComplementDigit(v: int, i: nat)
    ensures Digit(-v - 1, i) == 1 - Digit(v, i)
    decreases i
  {
    var q, r := v / 2, v % 2;
    ModUnique(-v - 1, 2, -q - 1, 1 - r);
    if i > 0 {
      ComplementDigit(q, i - 1);
    }
  }

  /** NOT flips exactly the eight low bits. */
  lemma NotDigit(v: int, i: nat)
    requires i < 8
    ensures Digit(Not(v), i) == 1 - Digit(v, i)
  {
    KeepIsMod(-v - 1, 8);
    Pow2Eight();
    KeepDigit(-v - 1, 8, i);
    ComplementDigit(v, i);
  }

  /** The low byte as a number, bit by bit. */
  lemma LowByteDigit(v: int, i: nat)
    requires i < 8
    ensures Digit(v % 256, i) == Digit(v, i)
  {
    KeepIsMod(v, 8);
    Pow2Eight();
    KeepDigit(v, 8, i);
  }

  /** NOT is an involution on the low byte. */
  lemma NotNot(v: int)
    ensures Not(Not(v)) == v % 256
  {
    Pow2Eight();
    forall i | 0 <= i < 8
      ensures Digit(Not(Not(v)), i) == Digit(v % 256, i)
    {
      NotDigit(Not(v), i);
      NotDigit(v, i);
      LowByteDigit(v, i);
    }
    DigitsDetermine(Not(Not(v)), v % 256, 8);
  }

  /** XOR with the same value twice gives the low byte back, and AND and OR
      of a value with itself are its low byte. */
  lemma XorCancels(a: int, b: int)
    ensures Xor(Xor(a, b), b) == a % 256
    ensures And(a, a) == a % 256 && Or(a, a) == a % 256
    ensures Xor(a, a) == 0
  {
    Pow2Eight();
    forall i | 0 <= i < 8
      ensures Digit(Xor(Xor(a, b), b), i) == Digit(a % 256, i)
      ensures Digit(And(a, a), i) == Digit(a % 256, i)
      ensures Digit(Or(a, a), i) == Digit(a % 256, i)
      ensures Digit(Xor(a, a), i) == Digit(0, i)
    {
      BitwiseDigit(XorBits, Xor(a, b), b, 8, i);
      BitwiseDigit(XorBits, a, b, 8, i);
      BitwiseDigit(AndBits, a, a, 8, i);
      BitwiseDigit(OrBits, a, a, 8, i);
      BitwiseDigit(XorBits, a, a, 8, i);
      ZeroDigit(i);
      LowByteDigit(a, i);
    }
    DigitsDetermine(Xor(Xor(a, b), b), a % 256, 8);
    DigitsDetermine(And(a, a), a % 256, 8);
    DigitsDetermine(Or(a, a), a % 256, 8);
    DigitsDetermine(Xor(a, a), 0, 8);
  }

  lemma {:induction false} ZeroDigit(i: nat)
    ensures Digit(0, i) == 0
  {
    if i > 0 {
      ZeroDigit(i - 1);
    }
  }

  /** De Morgan: NOT of AND is OR of the NOTs, on the low byte. */
  lemma DeMorgan(a: int, b: int)
    ensures Not(And(a, b)) == Or(Not(a), Not(b))
  {
    Pow2Eight();
    forall i | 0 <= i < 8
      ensures Digit(Not(And(a, b)), i) == Digit(Or(Not(a), Not(b)), i)
    {
      NotDigit(And(a, b), i);
      BitwiseDigit(AndBits, a, b, 8, i);
      BitwiseDigit(OrBits, Not(a), Not(b), 8, i);
      NotDigit(a, i);
      NotDigit(b, i);
    }
    DigitsDetermine(Not(And(a, b)), Or(Not(a), Not(b)), 8);
  }

  /** 2^i for a shift distance 0..7. */
  function Weight(i: int): (p: int)
    requires 0 <= i <= 7
    ensures 1 <= p <= 128
  {
    [1, 2, 4, 8, 16, 32, 64, 128][i]
  }

  /** `(v >> i) & 1` for an index 0..7 (an arithmetic shift is a floor
      division, which is what Dafny's division by a positive number is), and
      0 for any other index. */
  function Bit(v: int, i: int): (r: int)
    ensures r == 0 || r == 1
  {
    if i < 0 || i > 7 then 0 else (v / Weight(i)) % 2
  }

  lemma HalfWeight(v: int, i: int)
    requires 1 <= i <= 7
    ensures (v / 2) / Weight(i - 1) == v / Weight(i)
  {
    if i == 1 {
    } else if i == 2 {
    } else if i == 3 {
    } else if i == 4 {
    } else if i == 5 {
    } else if i == 6 {
    } else {
    }
  }

  /** BIT reads digit i of the binary expansion. */
  lemma {:induction false} BitIsDigit(v: int, i: int)
    requires 0 <= i <= 7
    ensures Bit(v, i) == Digit(v, i)
    decreases i
  {
    if i > 0 {
      BitIsDigit(v / 2, i - 1);
      HalfWeight(v, i);
    }
  }

  /** BIT of a bitwise result is the operation on the operands' bits, and BIT
      of NOT is the complemented bit. */
  lemma BitOfBitwise(a: int, b: int, i: int)
    requires 0 <= i <= 7
    ensures Bit(And(a, b), i) == (if Bit(a, i) == 1 && Bit(b, i) == 1 then 1 else 0)
    ensures Bit(Or(a, b), i) == (if Bit(a, i) == 1 || Bit(b, i) == 1 then 1 else 0)
    ensures Bit(Xor(a, b), i) == (if Bit(a, i) == Bit(b, i) then 0 else 1)
    ensures Bit(Not(a), i) == 1 - Bit(a, i)
  {
    BitIsDigit(a, i);
    BitIsDigit(b, i);
    BitIsDigit(And(a, b), i);
    BitIsDigit(Or(a, b), i);
    BitIsDigit(Xor(a, b), i);
    BitIsDigit(Not(a), i);
    BitwiseDigit(AndBits, a, b, 8, i);
    BitwiseDigit(OrBits, a, b, 8, i);
    BitwiseDigit(XorBits, a, b, 8, i);
    NotDigit(a, i);
  }

  /** `(v << i) & 0xff`, after the guards for distances <= 0 and > 7. A left
      shift of a 32-bit int multiplies modulo 2^32, which leaves the low byte
      as the exact product's. */
  function Shl(v: int, i: int): (r: byte)
  {
    if i <= 0 then v % 256 else if i > 7 then 0 else (v * Weight(i)) % 256
  }

  /** `(v >> i) & 0xff` with an arithmetic shift, after the same guards. */
  function Shr(v: int, i: int): (r: byte)
  {
    if i <= 0 then v % 256 else if i > 7 then 0 else (v / Weight(i)) % 256
  }

  /** A shift right of a byte by i followed by a shift left by i clears the i
      low bits. */
  lemma ShrThenShl(v: byte, i: int)
    requires 0 < i <= 7
    ensures Shl(Shr(v, i), i) == v - v % Weight(i)
  {
    var p := Weight(i);
    assert v / p < 256;
    assert (v / p) * p == v - v % p;
    assert 0 <= (v / p) * p < 256;
  }

  // ------------------------------------------------------------ numerals

  function HexDigit(d: int): (c: char)
    requires 0 <= d < 16
  {
    if d < 10 then ('0' as int + d) as char else ('A' as int + d - 10) as char
  }

  /** `ToString("X2")` of v & 0xff: two upper-case hexadecimal digits. */
  function ToHex(v: int): (r: string)
    ensures |r| == 2
    ensures forall k :: 0 <= k < 2 ==> IsDigit(r[k]) || 'A' <= r[k] <= 'F'
  {
    var b := v % 256;
    [HexDigit(b / 16), HexDigit(b % 16)]
  }

  /** The value of a hexadecimal digit in either case, if c is one. */
  function HexValue(c: char): (r: Option<int>)
    ensures r.Some? ==> 0 <= r.value < 16
    ensures r.Some? <==> IsDigit(c) || 'a' <= c <= 'f' || 'A' <= c <= 'F'
  {
    if 'a' <= c <= 'f' then Some(c as int - 'a' as int + 10)
    else if 'A' <= c <= 'F' then Some(c as int - 'A' as int + 10)
    else if IsDigit(c) then Some(c as int - '0' as int)
    else None
  }

  /** The accumulator of FromHex after the characters of s: every valid digit
      shifts it left by four bits in 32-bit arithmetic; other characters are
      skipped. */
  function HexAccumulator(s: string): (i: int)
  {
    if s == [] then 0
    else
      var i := HexAccumulator(s[..|s| - 1]);
      match HexValue(s[|s| - 1])
      case Some(d) => Wrap32(i * 16 + d)
      case None => i
  }

  /** The hexadecimal digits of s, ignoring every other character. */
  function HexDigits(s: string): (ds: seq<int>)
    ensures forall k :: 0 <= k < |ds| ==> 0 <= ds[k] < 16
  {
    if s == [] then []
    else
      match HexValue(s[|s| - 1])
      case Some(d) => HexDigits(s[..|s| - 1]) + [d]
      case None => HexDigits(s[..|s| - 1])
  }

  /** The k-th digit from the end (k >= 1), or 0 when there are fewer. */
  function FromEnd(ds: seq<int>, k: nat): int
    requires k >= 1
  {
    if |ds| < k then 0 else ds[|ds| - k]
  }

  /** `Byte.FromHex`: null reads as "0"; the characters are accumulated in
      order into a 32-bit int, whose low byte is the result. */
  method FromHex(value: Option<string>) returns (r: byte)
    ensures r == HexAccumulator(if value.None? then "0" else value.value) % 256
  {
    var s := if value.None? then "0" else value.value;
    var i := 0;
    var k := 0;
    while k < |s|
      invariant 0 <= k <= |s|
      invariant i == HexAccumulator(s[..k])
    {
      assert s[..k + 1][..k] == s[..k];
      var c := s[k];
      if 'a' <= c <= 'f' {
        i := Wrap32(i * 16 + (c as int - 'a' as int + 10));
      } else if 'A' <= c <= 'F' {
        i := Wrap32(i * 16 + (c as int - 'A' as int + 10));
      } else if '0' <= c <= '9' {
        i := Wrap32(i * 16 + (c as int - '0' as int));
      }
      k := k + 1;
    }
    assert s[..k] == s;
    r := i % 256;
  }

  lemma Wrap32Low(x: int)
    ensures Wrap32(x) % 256 == x % 256
    ensures Wrap32(x) % 16 == x % 16
  {
    var w := Wrap32(x);
    var q := (x + TWO_31) / TWO_32;
    assert x + TWO_31 == TWO_32 * q + (w + TWO_31);
    assert x - w == TWO_32 * q;
    assert TWO_32 * q == 256 * (0x100_0000 * q);
    assert TWO_32 * q == 16 * (0x1000_0000 * q);
  }

  /** The accumulator keeps exactly the last hexadecimal digit modulo 16 and
      the last two modulo 256, whatever came before them and however often
      the 32-bit value overflowed. */
  lemma {:induction false} HexAccumulatorLow(s: string)
    ensures HexAccumulator(s) % 16 == FromEnd(HexDigits(s), 1)
    ensures HexAccumulator(s) % 256 == 16 * FromEnd(HexDigits(s), 2) + FromEnd(HexDigits(s), 1)
    decreases |s|
  {
    if s != [] {
      var t := s[..|s| - 1];
      HexAccumulatorLow(t);
      var i := HexAccumulator(t);
      match HexValue(s[|s| - 1])
      case Some(d) =>
        Wrap32Low(i * 16 + d);
        assert (i * 16 + d) % 16 == d by {
          ModUnique(i * 16 + d, 16, i, d);
        }
        assert (i * 16 + d) % 256 == 16 * (i % 16) + d by {
          assert i == 16 * (i / 16) + i % 16;
          assert i * 16 + d == 256 * (i / 16) + (16 * (i % 16) + d);
          ModUnique(i * 16 + d, 256, i / 16, 16 * (i % 16) + d);
        }
      case None =>
    }
  }

  /** FromHex depends only on the last two hexadecimal digits of its
      argument. */
  lemma FromHexLastTwo(s: string)
    ensures HexAccumulator(s) % 256 == 16 * FromEnd(HexDigits(s), 2) + FromEnd(HexDigits(s), 1)
  {
    HexAccumulatorLow(s);
  }

  /** FromHex(ToHex(v)) is the low byte of v. */
  lemma FromHexToHex(v: int)
    ensures HexAccumulator(ToHex(v)) % 256 == v % 256
  {
    var h := ToHex(v);
    var b := v % 256;
    assert h[..1][..0] == [];
    assert HexValue(h[0]) == Some(b / 16);
    assert HexValue(h[1]) == Some(b % 16);
    assert h[..1] == [h[0]];
    assert HexDigits(h[..1]) == [b / 16];
    assert HexDigits(h) == [b / 16, b % 16];
    FromHexLastTwo(h);
  }

  /** Convert.ToString(v, 2): the binary numeral of v without leading zeros,
      "0" for zero. */
  function Binary(v: nat): (s: string)
    ensures |s| >= 1
    ensures forall k :: 0 <= k < |s| ==> s[k] == '0' || s[k] == '1'
  {
    if v < 2 then [if v == 0 then '0' else '1']
    else Binary(v / 2) + [if v % 2 == 0 then '0' else '1']
  }

  lemma {:induction false} BinaryLength(v: nat)
    requires v < Pow2(8)
    ensures |Binary(v)| <= 8
    decreases v
  {
    if v >= 2 {
      assert Pow2(8) == 2 * Pow2(7);
      BinaryLengthBelow(v / 2, 7);
    }
  }

  lemma {:induction false} BinaryLengthBelow(v: nat, n: nat)
    requires v < Pow2(n)
    ensures |Binary(v)| <= if n == 0 then 1 else n
    decreases v
  {
    if v >= 2 {
      assert Pow2(0) == 1 && Pow2(1) == 2;
      assert Pow2(n) == 2 * Pow2(n - 1);
      BinaryLengthBelow(v / 2, n - 1);
    }
  }

  /** The value of a string of binary digits, reading '0' and '1' only. */
  function BinaryValue(s: string): (n: nat)
  {
    if s == [] then 0
    else
      var c := s[|s| - 1];
      var i := BinaryValue(s[..|s| - 1]);
      if c == '0' || c == '1' then 2 * i + (c as int - '0' as int) else i
  }

  lemma {:induction false} BinaryValueOfBinary(v: nat)
    ensures BinaryValue(Binary(v)) == v
    decreases v
  {
    if v >= 2 {
      var s := Binary(v);
      BinaryValueOfBinary(v / 2);
      assert s[..|s| - 1] == Binary(v / 2);
    }
  }

  lemma {:induction false} BinaryValueZeros(z: nat, s: string)
    ensures BinaryValue(seq(z, _ => '0') + s) == BinaryValue(s)
    decreases |s|
  {
    var zs: string := seq(z, _ => '0');
    if s == [] {
      ZerosValue(z);
      assert zs + s == zs;
    } else {
      BinaryValueZeros(z, s[..|s| - 1]);
      assert (zs + s)[..|zs + s| - 1] == zs + s[..|s| - 1];
    }
  }

  lemma {:induction false} ZerosValue(z: nat)
    ensures BinaryValue(seq(z, _ => '0')) == 0
    decreases z
  {
    if z > 0 {
      var zs: string := seq(z, _ => '0');
      ZerosValue(z - 1);
      assert zs[..z - 1] == seq(z - 1, _ => '0');
    }
  }

  /** `Byte.ToBinary`: the binary numeral of v & 0xff, padded on the left
      with '0' up to eight digits. */
  method ToBinary(v: int) returns (s: string)
    ensures |s| == 8
    ensures forall k :: 0 <= k < 8 ==> s[k] == '0' || s[k] == '1'
    ensures BinaryValue(s) == v % 256
  {
    var b := v % 256;
    s := Binary(b);
    BinaryLength(b);
    BinaryValueOfBinary(b);
    while |s| < 8
      invariant |s| <= 8
      invariant forall k :: 0 <= k < |s| ==> s[k] == '0' || s[k] == '1'
      invariant BinaryValue(s) == b
      decreases 8 - |s|
    {
      BinaryValueZeros(1, s);
      assert seq(1, _ => '0') == "0";
      s := "0" + s;
    }
  }

  /** `Byte.FromBinary`: null reads as "0"; the '0' and '1' characters are
      accumulated in order into a 32-bit int, whose low byte is the result. */
  method FromBinary(value: Option<string>) returns (r: byte)
    ensures r == BinaryValue(if value.None? then "0" else value.value) % 256
  {
    var s := if value.None? then "0" else value.value;
    var i := 0;
    var k := 0;
    while k < |s|
      invariant 0 <= k <= |s|
      invariant i % 256 == BinaryValue(s[..k]) % 256
    {
      assert s[..k + 1][..k] == s[..k];
      var c := s[k];
      if '0' <= c <= '1' {
        ghost var n := BinaryValue(s[..k]);
        Wrap32Low(i * 2 + (c as int - '0' as int));
        DoubleLow(i, n, c as int - '0' as int);
        i := Wrap32(i * 2 + (c as int - '0' as int));
      }
      k := k + 1;
    }
    assert s[..k] == s;
    r := i % 256;
  }

  lemma DoubleLow(i: int, n: int, d: int)
    requires i % 256 == n % 256
    ensures (i * 2 + d) % 256 == (2 * n + d) % 256
  {
    assert i - n == 256 * ((i - n) / 256);
    assert (i * 2 + d) - (2 * n + d) == 256 * (2 * ((i - n) / 256));
  }

  /** The binary digits of s, ignoring every other character. */
  function BinaryDigits(s: string): (ds: seq<int>)
    ensures forall k :: 0 <= k < |ds| ==> ds[k] == 0 || ds[k] == 1
  {
    if s == [] then []
    else
      var c := s[|s| - 1];
      if c == '0' || c == '1' then BinaryDigits(s[..|s| - 1]) + [c as int - '0' as int]
      else BinaryDigits(s[..|s| - 1])
  }

  /** The number a sequence of binary digits denotes, most significant
      first. */
  function Number2(ds: seq<int>): int
  {
    if ds == [] then 0 else 2 * Number2(ds[..|ds| - 1]) + ds[|ds| - 1]
  }

  lemma {:induction false} BinaryValueDigits(s: string)
    ensures BinaryValue(s) == Number2(BinaryDigits(s))
    decreases |s|
  {
    if s != [] {
      BinaryValueDigits(s[..|s| - 1]);
      var ds := BinaryDigits(s);
      var c := s[|s| - 1];
      if c == '0' || c == '1' {
        assert ds[..|ds| - 1] == BinaryDigits(s[..|s| - 1]);
      }
    }
  }

  /** Modulo 2^n, a binary number is the number its last n digits denote. */
  lemma {:induction false} Number2Low(ds: seq<int>, n: nat)
    requires n <= |ds|
    requires forall k :: 0 <= k < |ds| ==> ds[k] == 0 || ds[k] == 1
    ensures Number2(ds) % Pow2(n) == Number2(ds[|ds| - n..])
    decreases n
  {
    if n == 0 {
      assert ds[|ds|..] == [];
    } else {
      var init := ds[..|ds| - 1];
      var d := ds[|ds| - 1];
      Number2Low(init, n - 1);
      var tail := ds[|ds| - n..];
      assert tail[..|tail| - 1] == init[|init| - (n - 1)..];
      Number2Bounds(init[|init| - (n - 1)..]);
      DoubleMod(Number2(init), Pow2(n - 1), d);
    }
  }

  lemma DoubleMod(x: int, p: int, d: int)
    requires p >= 1 && 0 <= d <= 1
    ensures (2 * x + d) % (2 * p) == 2 * (x % p) + d
  {
    var q, r := x / p, x % p;
    assert x == p * q + r;
    assert 2 * x + d == (2 * p) * q + (2 * r + d);
    ModUnique(2 * x + d, 2 * p, q, 2 * r + d);
  }

  lemma {:induction false} Number2Bounds(ds: seq<int>)
    requires forall k :: 0 <= k < |ds| ==> ds[k] == 0 || ds[k] == 1
    ensures 0 <= Number2(ds) < Pow2(|ds|)
    decreases |ds|
  {
    if ds != [] {
      Number2Bounds(ds[..|ds| - 1]);
    }
  }

  /** FromBinary depends only on the last eight binary digits of its
      argument. */
  lemma FromBinaryLastEight(s: string)
    requires |BinaryDigits(s)| >= 8
    ensures BinaryValue(s) % 256 == Number2(BinaryDigits(s)[|BinaryDigits(s)| - 8..])
  {
    BinaryValueDigits(s);
    Number2Low(BinaryDigits(s), 8);
    assert Pow2(8) == 256 by {
      assert Pow2(4) == 16;
      assert Pow2(8) == 16 * Pow2(4);
    }
  }
}
