/** Big numbers: the compact encoding of difficulty targets, and the signed byte form. */
module BigNum {
  import opened Radix

  const SIGN: nat := 0x0080_0000
  const WORD: nat := 0x0100_0000     // the mantissa and the sign
  const UINT: nat := 0x1_0000_0000

  function Pow256(n: nat): (r: nat)
    ensures r > 0
  {
    if n == 0 then 1 else 256 * Pow256(n - 1)
  }

  function Abs(x: int): nat {
    if x < 0 then -x else x
  }

  /** How many bytes a number takes. */
  function NumBytes(m: nat): nat {
    if m == 0 then 0 else 1 + NumBytes(m / 256)
  }

  /** The exponent of a number's encoding: the bytes it takes together with a sign bit. */
  function Exponent(m: nat): nat {
    NumBytes(2 * m)
  }

  /** The leading three bytes under an exponent. */
  function Mantissa(m: nat, e: nat): nat {
    if e <= 3 then m * Pow256(3 - e) else Quotient(m, Pow256(e - 3))
  }

  /** What is left of a number when only the bytes of the mantissa are kept. */
  function Rounded(m: nat): nat {
    var e := Exponent(m);
    if e <= 3 then m else Quotient(m, Pow256(e - 3)) * Pow256(e - 3)
  }

  function RoundedSigned(x: int): int {
    if x < 0 then 0 - Rounded(-x) else Rounded(x)
  }

  /** The exponent fits the byte the encoding has for it. */
  predicate Encodable(x: int) {
    Exponent(Abs(x)) < 256
  }

  // ---- Arithmetic ----

  lemma {:induction false} NumBytesBounds(m: nat)
    ensures m < Pow256(NumBytes(m))
    ensures m > 0 ==> NumBytes(m) > 0 && Pow256(NumBytes(m) - 1) <= m
  {
    if m > 0 {
      NumBytesBounds(m / 256);
    }
  }

  lemma {:induction false} PowMonotone(a: nat, b: nat)
    requires a <= b
    ensures Pow256(a) <= Pow256(b)
    decreases b
  {
    if a < b {
      PowMonotone(a, b - 1);
    }
  }

  lemma {:induction false} NumBytesIs(m: nat, n: nat)
    requires m < Pow256(n) && (n > 0 ==> Pow256(n - 1) <= m)
    ensures NumBytes(m) == n
  {
    if n > 0 {
      NumBytesIs(m / 256, n - 1);
    }
  }

  lemma {:induction false} NumBytesMonotone(a: nat, b: nat)
    requires a <= b
    ensures NumBytes(a) <= NumBytes(b)
  {
    if a > 0 {
      NumBytesMonotone(a / 256, b / 256);
    }
  }

  lemma SmallPowers()
    ensures Pow256(0) == 1 && Pow256(1) == 256 && Pow256(2) == 0x1_0000 && Pow256(3) == 0x100_0000
  {
  }

  /** The leading bytes have room for the sign, and are significant. */
  lemma MantissaBounds(m: nat)
    requires m > 0
    ensures Exponent(m) > 0 && 0x8000 <= Mantissa(m, Exponent(m)) < SIGN
  {
    var e := Exponent(m);
    NumBytesBounds(2 * m);
    SmallPowers();
    if e > 3 {
      var p := Pow256(e - 3);
      assert Pow256(e - 1) == 256 * Pow256(e - 2) == 256 * (256 * p);
      assert Pow256(e) == 256 * Pow256(e - 1);
      QuotientBounds(m, p, 0x8000, SIGN);
    }
  }

  lemma RoundedExact(m: nat)
    requires Exponent(m) <= 3
    ensures Rounded(m) == m && Quotient(Mantissa(m, Exponent(m)), Pow256(3 - Exponent(m))) == m
  {
    ExactQuotient(m, Pow256(3 - Exponent(m)));
  }

  lemma RoundedParts(m: nat)
    requires Exponent(m) > 3
    ensures var p := Pow256(Exponent(m) - 3);
            && Rounded(m) == Mantissa(m, Exponent(m)) * p && Rounded(m) <= m < Rounded(m) + p
            && Rounded(m) >= 0x8000 * p
  {
    var e := Exponent(m);
    var p := Pow256(e - 3);
    assert m > 0;
    MantissaBounds(m);
    Mul(0x8000, Quotient(m, p), p);
  }

  /** Rounding keeps all but one part in 2^15. */
  lemma RoundedClose(m: nat)
    ensures Rounded(m) <= m && (m - Rounded(m)) * 0x8000 <= Rounded(m)
  {
    if Exponent(m) > 3 {
      RoundedParts(m);
    }
  }

  lemma RoundedMonotone(m: nat, n: nat)
    requires m <= n
    ensures Rounded(m) <= Rounded(n)
  {
    NumBytesMonotone(2 * m, 2 * n);
    RoundedClose(m);
    var d, e := Exponent(m), Exponent(n);
    if e > 3 {
      RoundedParts(n);
      if d == e {
        QuotientMonotone(m, n, Pow256(e - 3));
      } else {
        NumBytesBounds(2 * m);
        PowMonotone(d, e - 1);
        assert Pow256(e - 1) == 256 * Pow256(e - 2) == 256 * (256 * Pow256(e - 3));
      }
    }
  }

  lemma QuotientMonotone(m: nat, n: nat, p: nat)
    requires m <= n && p > 0
    ensures Quotient(m, p) * p <= Quotient(n, p) * p
  {
    Mul(Quotient(n, p) + 1, Quotient(m, p), p);
    Mul(Quotient(m, p), Quotient(n, p), p);
  }

  /** Rounding again changes nothing, neither the number nor its parts. */
  lemma RoundedAgain(m: nat)
    ensures Exponent(Rounded(m)) == Exponent(m)
    ensures Mantissa(Rounded(m), Exponent(m)) == Mantissa(m, Exponent(m))
    ensures Rounded(Rounded(m)) == Rounded(m)
  {
    var e := Exponent(m);
    if e > 3 {
      var p := Pow256(e - 3);
      RoundedParts(m);
      NumBytesBounds(2 * m);
      assert Pow256(e - 1) == 256 * Pow256(e - 2) == 256 * (256 * p);
      NumBytesIs(2 * Rounded(m), e);
      ExactQuotient(Quotient(m, p), p);
    }
  }

  lemma ExactQuotient(q: nat, p: nat)
    requires p > 0
    ensures Quotient(q * p, p) == q
  {
    QuotientBounds(q * p, p, q, q + 1);
  }

  // ---- The encoding ----

  /** An encoding from its parts: a byte of exponent, the sign, and the mantissa. */
  function Pack(e: nat, w: nat, negative: bool): nat {
    e * WORD + w + if negative then SIGN else 0
  }

  function Magnitude(e: nat, w: nat): int {
    if e <= 3 then Quotient(w, Pow256(3 - e)) else w * Pow256(e - 3)
  }

  /** The number the parts stand for. There is no negative zero. */
  function Unpacked(e: nat, w: nat, negative: bool): int {
    if negative then 0 - Magnitude(e, w) else Magnitude(e, w)
  }

  /** The compact encoding; the exponent is cut to its byte. */
  function Compact(x: int): nat {
    Pack(Exponent(Abs(x)) % 256, Mantissa(Abs(x), Exponent(Abs(x))), x < 0)
  }

  /** The documented instances, and zero. */
  lemma FiveBytes()
    ensures Compact(0x12_3456_0000) == 0x0512_3456 && Decoded(0x0512_3456) == 0x12_3456_0000
  {
    Shifted(0x12_3456, 0x1_0000, 5, 2);
    assert NumBytes(0x24_68ac_0000) == 5;
    Packed(5, 0x12_3456, false);
  }

  lemma SixBytes()
    ensures Compact(0xc0_de00_0000) == 0x0600_c0de && Decoded(0x0600_c0de) == 0xc0_de00_0000
  {
    Shifted(0xc0de, 0x100_0000, 6, 3);
    assert NumBytes(0x181_bc00_0000) == 6;
    Packed(6, 0xc0de, false);
  }

  lemma NegativeAndZero()
    ensures Decoded(0x05c0_de00) == -0x40_de00_0000 && Compact(0) == 0
  {
    Shifted(0x40_de00, 0x1_0000, 5, 2);
    Packed(5, 0x40_de00, true);
  }

  lemma Shifted(w: nat, p: nat, e: nat, n: nat)
    requires e == n + 3 && p == Pow256(n)
    ensures Mantissa(w * p, e) == w && Magnitude(e, w) == w * p
  {
    if n == 0 {
      assert w * Pow256(0) == w;
    } else {
      QuotientBounds(w * p, p, w, w + 1);
    }
  }

  /** The number an encoding stands for. */
  function Decoded(c: nat): int {
    Unpacked(c / WORD, c % SIGN, c % WORD >= SIGN)
  }

  lemma Packed(e: nat, w: nat, negative: bool)
    requires e < 256 && w < SIGN
    ensures Pack(e, w, negative) < UINT && Decoded(Pack(e, w, negative)) == Unpacked(e, w, negative)
  {
    var c := Pack(e, w, negative);
    assert c / WORD == e && c % SIGN == w && (c % WORD >= SIGN <==> negative);
  }

  lemma MantissaFits(m: nat)
    ensures Mantissa(m, Exponent(m)) < SIGN
  {
    if m > 0 {
      MantissaBounds(m);
    } else {
      SmallPowers();
    }
  }

  lemma ValueOfParts(m: nat, negative: bool)
    ensures Unpacked(Exponent(m), Mantissa(m, Exponent(m)), negative) == if negative then 0 - Rounded(m) else Rounded(m)
  {
    if Exponent(m) <= 3 {
      RoundedExact(m);
    } else {
      RoundedParts(m);
    }
  }

  /** Decoding what was encoded gives the number rounded towards zero. */
  lemma DecodedCompact(x: int)
    requires Encodable(x)
    ensures Compact(x) < UINT && Decoded(Compact(x)) == RoundedSigned(x)
  {
    var m := Abs(x);
    var e := Exponent(m);
    MantissaFits(m);
    assert e % 256 == e;
    Packed(e, Mantissa(m, e), x < 0);
    ValueOfParts(m, x < 0);
  }

  /** The decoded number is no larger than x in magnitude, has its sign, and is off by one part in 2^15 at most. */
  lemma CompactIsClose(x: int)
    requires Encodable(x)
    ensures var y := Decoded(Compact(x));
            && Abs(y) <= Abs(x) && (Abs(x) - Abs(y)) * 0x8000 <= Abs(y)
            && (x > 0 ==> y > 0) && (x < 0 ==> y < 0) && (x == 0 ==> y == 0)
  {
    DecodedCompact(x);
    RoundedClose(Abs(x));
  }

  /** The exponent range is the exact condition: beyond it less than half of the number comes back. */
  lemma NotEncodable(x: int)
    requires !Encodable(x)
    ensures 2 * Abs(Decoded(Compact(x))) < Abs(x)
  {
    var m := Abs(x);
    var low := Exponent(m) % 256;
    MantissaFits(m);
    Packed(low, Mantissa(m, Exponent(m)), x < 0);
    MagnitudeBelow(Mantissa(m, Exponent(m)), low);
    LargeNumber(m, low);
  }

  lemma LargeNumber(m: nat, low: nat)
    requires Exponent(m) >= 256 && low == Exponent(m) % 256
    ensures Pow256(if low < 3 then 3 else low) <= m
  {
    var e := Exponent(m);
    NumBytesBounds(2 * m);
    PowMonotone(if low < 3 then 3 else low, e - 2);
    assert Pow256(e - 1) == 256 * Pow256(e - 2);
  }

  lemma MagnitudeBelow(w: nat, e: nat)
    requires w < SIGN
    ensures 0 <= 2 * Magnitude(e, w) < Pow256(if e < 3 then 3 else e)
  {
    if e <= 3 {
      SmallPowers();
      QuotientBounds(w, Pow256(3 - e), 0, SIGN);
    } else {
      ShiftBelow(w, Pow256(e - 3));
      assert Pow256(e) == 256 * Pow256(e - 1);
      assert Pow256(e - 1) == 256 * Pow256(e - 2);
      assert Pow256(e - 2) == 256 * Pow256(e - 3);
    }
  }

  lemma ShiftBelow(w: nat, p: nat)
    requires w < SIGN && p > 0
    ensures 0 <= 2 * (w * p) < WORD * p
  {
    Mul(w + 1, SIGN, p);
    Mul(0, w, p);
  }

  /** The decoded number is close to x exactly if the exponent fits. */
  lemma CloseIffEncodable(x: int)
    ensures var y := Decoded(Compact(x));
            Abs(y) <= Abs(x) && (Abs(x) - Abs(y)) * 0x8000 <= Abs(y) <==> Encodable(x)
  {
    if Encodable(x) {
      CompactIsClose(x);
    } else {
      NotEncodable(x);
    }
  }

  lemma PowerOf256(n: nat)
    requires n > 2
    ensures Exponent(Pow256(n)) == n + 1 && Mantissa(Pow256(n), n + 1) == 0x1_0000
  {
    assert Exponent(Pow256(n)) == n + 1 by {
      assert Pow256(n + 1) == 256 * Pow256(n);
      NumBytesIs(2 * Pow256(n), n + 1);
    }
    var p := Pow256(n - 2);
    assert Pow256(n) == 0x1_0000 * p by {
      assert Pow256(n) == 256 * Pow256(n - 1) && Pow256(n - 1) == 256 * p;
    }
    ExactQuotient(0x1_0000, p);
  }

  lemma PowerComesBack(n: nat)
    requires n > 2 && (n + 1) % 256 == 1
    ensures Decoded(Compact(Pow256(n))) == 1 < Pow256(n)
  {
    PowerOf256(n);
    Packed(1, 0x1_0000, false);
    SmallPowers();
    ExactQuotient(1, Pow256(2));
    PowMonotone(1, n);
  }

  /** The least power of 256 that is not encodable: of 256^256 the encoding leaves 1. */
  lemma TooLarge()
    ensures !Encodable(Pow256(256)) && Decoded(Compact(Pow256(256))) == 1 < Pow256(256)
  {
    PowerOf256(256);
    PowerComesBack(256);
  }

  lemma CompactIsMonotone(x: int, y: int)
    requires Encodable(x) && Encodable(y) && x <= y
    ensures Decoded(Compact(x)) <= Decoded(Compact(y))
  {
    DecodedCompact(x);
    DecodedCompact(y);
    if x >= 0 {
      RoundedMonotone(x, y);
    } else if y < 0 {
      RoundedMonotone(-y, -x);
    }
  }

  /** Encoding the decoded number gives the same encoding. */
  lemma CompactIsCanonical(x: int)
    requires Encodable(x)
    ensures Encodable(Decoded(Compact(x))) && Compact(Decoded(Compact(x))) == Compact(x)
  {
    DecodedCompact(x);
    RoundedAgain(Abs(x));
    CompactIsClose(x);
  }

  /** Among encodable numbers, exactly those with no bits below the mantissa come back unchanged. */
  lemma ExactNumbers(x: int)
    requires Encodable(x)
    ensures Decoded(Compact(x)) == x <==> Exponent(Abs(x)) <= 3 || Abs(x) % Pow256(Exponent(Abs(x)) - 3) == 0
  {
    DecodedCompact(x);
    if Exponent(Abs(x)) > 3 {
      NoRemainder(Abs(x), Pow256(Exponent(Abs(x)) - 3));
    }
  }

  lemma NoRemainder(m: nat, p: nat)
    requires p > 0
    ensures Quotient(m, p) * p == m <==> m % p == 0
  {
    assert m == m / p * p + m % p;
  }

  // ---- CBigNum ----

  /** Bit 23 is set. */
  predicate HasSign(nCompact: nat): (b: bool)
    ensures b <==> nCompact % WORD >= SIGN
  {
    (nCompact / SIGN) % 2 != 0
  }

  class CBigNum {
    var value: int

    constructor (x: int)
      ensures value == x
    {
      value := x;
    }

    method SetCompact(nCompact: nat)
      requires nCompact < UINT
      modifies this
      ensures value == Decoded(nCompact)
    {
      var nSize := nCompact / 0x0100_0000;
      var fNegative := HasSign(nCompact);
      var nWord := nCompact % 0x0080_0000;
      if nSize <= 3 {
        nWord := Quotient(nWord, Pow256(3 - nSize));
        value := nWord;
      } else {
        value := nWord;
        value := value * Pow256(nSize - 3);
      }
      if fNegative {
        value := -value;
      }
    }

    method GetCompact() returns (nCompact: nat)
      ensures nCompact == Compact(value)
    {
      var m := Abs(value);
      var nSize := NumBytes(m);
      if nSize <= 3 {
        nCompact := m * Pow256(3 - nSize);
      } else {
        nCompact := Quotient(m, Pow256(nSize - 3));
      }
      LeadingBytes(m);
      if nCompact >= 0x0080_0000 {
        nCompact := nCompact / 256;
        nSize := nSize + 1;
      }
      nCompact := nCompact + nSize % 256 * 0x0100_0000;
      if value < 0 {
        nCompact := nCompact + 0x0080_0000;
      }
    }

    /** Sets the number from its bytes, least significant first; the top bit of the last is the sign. */
    method SetVch(vch: seq<nat>)
      requires AllBelow(vch, 256)
      modifies this
      ensures value == FromVch(vch)
    {
      var mpi := Reversed(vch);
      if mpi == [] {
        value := 0;
      } else if mpi[0] >= 0x80 {
        mpi := mpi[0 := mpi[0] - 0x80];
        value := 0 - Value(mpi, |mpi|, 256);
      } else {
        value := Value(mpi, |mpi|, 256);
      }
    }

    method GetVch() returns (vch: seq<nat>)
      ensures vch == ToVch(value)
    {
      var mpi := Digits(Abs(value), 256);
      if mpi != [] && mpi[0] >= 0x80 {
        mpi := [0] + mpi;
      }
      if value < 0 {
        DigitsAre(Abs(value), 256);
        mpi := mpi[0 := mpi[0] + 0x80];
      }
      vch := Reversed(mpi);
    }
  }

  /** The leading three bytes take one more exponent exactly if they run into the sign bit. */
  lemma LeadingBytes(m: nat)
    ensures var n := NumBytes(m);
            var c := Mantissa(m, n);
            c < WORD && if c >= SIGN then Exponent(m) == n + 1 && Mantissa(m, n + 1) == c / 256 else Exponent(m) == n
  {
    if NumBytes(m) <= 3 {
      LeadingBytesSmall(m);
    } else {
      LeadingBytesLarge(m, Pow256(NumBytes(m) - 3));
    }
  }

  lemma SmallMantissas(m: nat)
    ensures Mantissa(m, 0) == 0x100_0000 * m && Mantissa(m, 1) == 0x1_0000 * m && Mantissa(m, 2) == 0x100 * m && Mantissa(m, 3) == m
    ensures Mantissa(m, 4) == m / 0x100
  {
    SmallPowers();
  }

  lemma LeadingBytesSmall(m: nat)
    requires NumBytes(m) <= 3
    ensures var n := NumBytes(m);
            var c := Mantissa(m, n);
            c < WORD && if c >= SIGN then Exponent(m) == n + 1 && Mantissa(m, n + 1) == c / 256 else Exponent(m) == n
  {
    var n := NumBytes(m);
    NumBytesBounds(m);
    SmallPowers();
    SmallMantissas(m);
    if n == 0 {
    } else if n == 1 {
      NumBytesIs(2 * m, if m >= 0x80 then 2 else 1);
    } else if n == 2 {
      NumBytesIs(2 * m, if m >= 0x8000 then 3 else 2);
    } else {
      assert Pow256(4) == 0x1_0000_0000;
      NumBytesIs(2 * m, if m >= SIGN then 4 else 3);
    }
  }

  lemma LeadingQuotient(m: nat, p: nat)
    requires p > 0 && m < WORD * p
    ensures Quotient(m, p) < WORD && (Quotient(m, p) >= SIGN <==> m >= SIGN * p)
  {
    QuotientBounds(m, p, 0, WORD);
    Mul(SIGN, Quotient(m, p), p);
    Mul(Quotient(m, p) + 1, SIGN, p);
  }

  lemma LeadingBytesLarge(m: nat, p: nat)
    requires NumBytes(m) > 3 && p == Pow256(NumBytes(m) - 3)
    ensures var n := NumBytes(m);
            var c := Quotient(m, p);
            c < WORD && if c >= SIGN then Exponent(m) == n + 1 && Mantissa(m, n + 1) == c / 256 else Exponent(m) == n
  {
    var n, c := NumBytes(m), Quotient(m, p);
    NumBytesBounds(m);
    assert Pow256(n - 1) == 256 * Pow256(n - 2) == 256 * (256 * p);
    assert Pow256(n) == 256 * Pow256(n - 1);
    LeadingQuotient(m, p);
    NumBytesIs(2 * m, if c >= SIGN then n + 1 else n);
    QuotientTwice(m, p);
  }

  lemma QuotientTwice(m: nat, p: nat)
    requires p > 0
    ensures Quotient(m, p) / 256 == Quotient(m, 256 * p)
  {
    var a := Quotient(m, p);
    var b := a / 256;
    Mul(256 * b, a, p);
    Mul(a + 1, 256 * (b + 1), p);
    QuotientBounds(m, 256 * p, b, b + 1);
  }

  // ---- The signed byte form ----

  /** The bytes of a magnitude, with room for the sign bit. */
  function WithSignBit(m: nat): seq<nat> {
    var d := Digits(m, 256);
    if d != [] && d[0] >= 0x80 then [0] + d else d
  }

  lemma WithSignBitIs(m: nat)
    ensures var d := WithSignBit(m);
            && AllBelow(d, 256) && Value(d, |d|, 256) == m && (d == [] <==> m == 0) && (d != [] ==> d[0] < 0x80)
            && (d != [] && d[0] == 0 ==> |d| > 1 && d[1] >= 0x80)
  {
    var d := Digits(m, 256);
    DigitsAre(m, 256);
    ValueOfDigits(m, 256);
    if d != [] && d[0] >= 0x80 {
      ValueSkipsZeros([0] + d, 1, |d| + 1, 256);
      assert ([0] + d)[1..] == d;
    }
  }

  /** The bytes of a number, least significant first; the top bit of the last is the sign. */
  function ToVch(x: int): seq<nat> {
    Reversed(AddSign(WithSignBit(Abs(x)), x < 0))
  }

  /** The number that bytes stand for, most significant first. */
  function FromSigned(d: seq<nat>): int {
    if d == [] then 0
    else if d[0] >= 0x80 then 0 - Value(d[0 := d[0] - 0x80], |d|, 256)
    else Value(d, |d|, 256)
  }

  function FromVch(vch: seq<nat>): int {
    FromSigned(Reversed(vch))
  }

  /** A single byte has seven bits of magnitude and a sign; each byte put before others, least significant first, shifts
      the number by a byte. So these two say what bytes stand for. */
  lemma OneByte(b: nat)
    requires b < 256
    ensures FromVch([b]) == if b < 128 then b else 128 - b
  {
    assert Reversed([b]) == [b];
    assert Value([b], 1, 256) == Value([b], 0, 256) * 256 + b;
    if b >= 128 {
      assert [b][0 := b - 128] == [b - 128];
      assert Value([b - 128], 1, 256) == Value([b - 128], 0, 256) * 256 + (b - 128);
    }
  }

  lemma LowByte(b: nat, rest: seq<nat>)
    requires rest != []
    ensures FromVch([b] + rest) == FromVch(rest) * 256 + (if rest[|rest| - 1] < 128 then 1 else -1) * b
  {
    var d := Reversed(rest);
    assert Reversed([b] + rest) == d + [b];
    LastDigit(d, b, 256);
    if d[0] >= 0x80 {
      assert (d + [b])[0 := d[0] - 0x80] == d[0 := d[0] - 0x80] + [b];
      LastDigit(d[0 := d[0] - 0x80], b, 256);
    }
  }

  lemma LastDigit(d: seq<nat>, b: nat, base: nat)
    ensures Value(d + [b], |d| + 1, base) == Value(d, |d|, base) * base + b
  {
    ValuePrefix(d + [b], d, |d|, base);
  }

  function AddSign(d: seq<nat>, negative: bool): seq<nat> {
    if negative && d != [] then d[0 := d[0] + 0x80] else d
  }

  lemma SignAdded(d: seq<nat>, negative: bool)
    requires d != [] ==> d[0] < 0x80
    ensures FromSigned(AddSign(d, negative)) == if negative && d != [] then 0 - Value(d, |d|, 256) else Value(d, |d|, 256)
  {
    if negative && d != [] {
      assert AddSign(d, negative)[0 := AddSign(d, negative)[0] - 0x80] == d;
    }
  }

  /** Every number comes back from its bytes. */
  lemma VchRoundTrip(x: int)
    ensures FromVch(ToVch(x)) == x
  {
    var d := WithSignBit(Abs(x));
    WithSignBitIs(Abs(x));
    ReversedTwice(AddSign(d, x < 0));
    SignAdded(d, x < 0);
  }

  /** No byte could be left out: the first one carries more than the sign, or the next one needs its top bit. */
  predicate MinimalBytes(d: seq<nat>) {
    d == [] || d[0] % 0x80 != 0 || (|d| > 1 && d[1] >= 0x80)
  }

  predicate Minimal(vch: seq<nat>) {
    MinimalBytes(Reversed(vch))
  }

  /** The byte sequences that come back from their number are exactly the minimal ones. */
  lemma VchOfNumber(vch: seq<nat>)
    requires AllBelow(vch, 256)
    ensures ToVch(FromVch(vch)) == vch <==> Minimal(vch)
  {
    ReversedTwice(vch);
    if Minimal(vch) {
      MinimalSigned(Reversed(vch));
    }
    MinimalResult(FromVch(vch));
  }

  lemma MinimalResult(x: int)
    ensures Minimal(ToVch(x))
  {
    var d := WithSignBit(Abs(x));
    WithSignBitIs(Abs(x));
    MinimalWithSign(d, x < 0);
    ReversedTwice(AddSign(d, x < 0));
  }

  lemma MinimalWithSign(d: seq<nat>, negative: bool)
    requires d != [] ==> d[0] < 0x80
    requires d != [] && d[0] == 0 ==> |d| > 1 && d[1] >= 0x80
    ensures MinimalBytes(AddSign(d, negative))
  {
  }

  lemma MinimalPlain(d: seq<nat>)
    requires d != [] && AllBelow(d, 256) && d[0] < 0x80 && (d[0] == 0 ==> |d| > 1 && d[1] >= 0x80)
    ensures Value(d, |d|, 256) > 0 && WithSignBit(Value(d, |d|, 256)) == d
  {
    if d[0] == 0 {
      MinimalWithZero(d);
    } else {
      MinimalWithoutZero(d);
    }
  }

  lemma MinimalNegative(d: seq<nat>)
    requires d != [] && AllBelow(d, 256) && MinimalBytes(d) && d[0] >= 0x80
    ensures AddSign(WithSignBit(Abs(FromSigned(d))), FromSigned(d) < 0) == d
  {
    var plain := d[0 := d[0] - 0x80];
    MinimalPlain(plain);
    assert FromSigned(d) == 0 - Value(plain, |plain|, 256);
    assert AddSign(plain, true) == d;
  }

  lemma MinimalSigned(d: seq<nat>)
    requires AllBelow(d, 256) && MinimalBytes(d)
    ensures AddSign(WithSignBit(Abs(FromSigned(d))), FromSigned(d) < 0) == d
  {
    if d != [] {
      if d[0] >= 0x80 {
        MinimalNegative(d);
      } else {
        MinimalPlain(d);
      }
    }
  }

  lemma MinimalWithZero(d: seq<nat>)
    requires |d| > 1 && d[0] == 0 && d[1] >= 0x80 && AllBelow(d, 256)
    ensures Value(d, |d|, 256) > 0 && WithSignBit(Value(d, |d|, 256)) == d
  {
    var rest := d[1..];
    var n := |rest|;
    ValueSkipsZeros(d, 1, |d|, 256);
    DigitsOfValue(rest, n, 256);
    ValuePositive(rest, n, 256);
    assert rest[..n] == rest && d == [0] + rest;
  }

  lemma MinimalWithoutZero(d: seq<nat>)
    requires d != [] && 0 < d[0] < 0x80 && AllBelow(d, 256)
    ensures Value(d, |d|, 256) > 0 && WithSignBit(Value(d, |d|, 256)) == d
  {
    var n := |d|;
    DigitsOfValue(d, n, 256);
    ValuePositive(d, n, 256);
    assert d[..n] == d;
  }
}
