/** Bytes, and numbers as bytes. */
module Bytes {
  type byte = x: int | 0 <= x < 256

  const WORD := 0x1_0000_0000     // the number of values of a 32-bit word

  /** The bytes of a number, least significant first. */
  function LittleEndian(value: nat, n: nat): (bytes: seq<byte>)
    ensures |bytes| == n
  {
    if n == 0 then [] else [value % 256] + LittleEndian(value / 256, n - 1)
  }

  /** The bytes of a number, most significant first. */
  function BigEndian(value: nat, n: nat): (bytes: seq<byte>)
    ensures |bytes| == n
  {
    if n == 0 then [] else BigEndian(value / 256, n - 1) + [value % 256]
  }

  function Power(n: nat): (p: nat)
    ensures p > 0
  {
    if n == 0 then 1 else 256 * Power(n - 1)
  }

  lemma {:induction false} DivideBy256(low: nat, p: nat, high: nat)
    ensures (low + 256 * p * high) / 256 == low / 256 + p * high && (low + 256 * p * high) % 256 == low % 256
  {
    var x := p * high;
    assert 256 * p * high == 256 * x;
    assert low + 256 * x == 256 * (low / 256 + x) + low % 256;
  }

  lemma {:induction false} LittleEndianSplit(low: nat, high: nat, k: nat, n: nat)
    requires low < Power(k)
    ensures LittleEndian(low + Power(k) * high, k + n) == LittleEndian(low, k) + LittleEndian(high, n)
  {
    if k > 0 {
      DivideBy256(low, Power(k - 1), high);
      LittleEndianSplit(low / 256, high, k - 1, n);
    }
  }

  lemma {:induction false} BigEndianSplit(high: nat, low: nat, n: nat, k: nat)
    requires low < Power(k)
    ensures BigEndian(low + Power(k) * high, n + k) == BigEndian(high, n) + BigEndian(low, k)
  {
    if k > 0 {
      DivideBy256(low, Power(k - 1), high);
      BigEndianSplit(high, low / 256, n, k - 1);
    }
  }

  /** The bytes of a 64-bit number are those of its two words. */
  lemma {:induction false} TwoWords(low: nat, high: nat)
    requires low < WORD
    ensures LittleEndian(high * WORD + low, 8) == LittleEndian(low, 4) + LittleEndian(high, 4)
    ensures BigEndian(high * WORD + low, 8) == BigEndian(high, 4) + BigEndian(low, 4)
  {
    hide LittleEndian, BigEndian;
    assert Power(4) == WORD by {
      assert Power(0) == 1 && Power(1) == 256 && Power(2) == 65536 && Power(3) == 16777216;
    }
    LittleEndianSplit(low, high, 4, 4);
    BigEndianSplit(high, low, 4, 4);
  }

  /** Digit i of a number in base 256, from the lowest on. */
  function ByteAt(value: nat, i: nat): nat {
    if i == 0 then value % 256 else ByteAt(value / 256, i - 1)
  }

  lemma {:induction false} BytesAreDigits(value: nat, n: nat, i: nat)
    requires i < n
    ensures LittleEndian(value, n)[i] == ByteAt(value, i) && BigEndian(value, n)[n - 1 - i] == ByteAt(value, i)
  {
    if i > 0 {
      BytesAreDigits(value / 256, n - 1, i - 1);
    }
  }

  /** The number that these bytes are, least significant first. */
  function LowFirst(bytes: seq<byte>): nat {
    if bytes == [] then 0 else bytes[0] + 256 * LowFirst(bytes[1..])
  }

  lemma {:induction false} LowFirstOfBytes(value: nat, n: nat)
    requires value < Power(n)
    ensures LowFirst(LittleEndian(value, n)) == value
  {
    if n > 0 {
      LowFirstOfBytes(value / 256, n - 1);
      assert LittleEndian(value, n)[1..] == LittleEndian(value / 256, n - 1);
    }
  }

  /** The number that these bytes are, most significant first. */
  function Value(bytes: seq<byte>): nat {
    if bytes == [] then 0 else Value(bytes[..|bytes| - 1]) * 256 + bytes[|bytes| - 1]
  }

  lemma {:induction false} ValueOfBytes(value: nat, n: nat)
    requires value < Power(n)
    ensures Value(BigEndian(value, n)) == value
  {
    if n > 0 {
      var front := BigEndian(value / 256, n - 1);
      assert (front + [value % 256])[..n - 1] == front;
      ValueOfBytes(value / 256, n - 1);
    }
  }

  /** Exclusive or of the n lowest bits. */
  function XorBits(a: nat, b: nat, n: nat): nat {
    if n == 0 then 0 else (a % 2 + b % 2) % 2 + 2 * XorBits(a / 2, b / 2, n - 1)
  }

  lemma {:induction false} XorBitsTwice(a: nat, b: nat, n: nat)
    requires a < BitRange(n)
    ensures XorBits(a, b, n) < BitRange(n) && XorBits(XorBits(a, b, n), b, n) == a
  {
    if n > 0 {
      var x := XorBits(a / 2, b / 2, n - 1);
      XorBitsTwice(a / 2, b / 2, n - 1);
      OneBit(a % 2, b % 2, x);
      assert XorBits(a, b, n) == (a % 2 + b % 2) % 2 + 2 * x;
    }
  }

  /** Bit i of a number. */
  function Bit(x: nat, i: nat): (b: nat)
    ensures b < 2
  {
    if i == 0 then x % 2 else Bit(x / 2, i - 1)
  }

  lemma {:induction false} BitOfXor(a: nat, b: nat, n: nat, i: nat)
    requires i < n
    ensures Bit(XorBits(a, b, n), i) == 1 <==> Bit(a, i) != Bit(b, i)
  {
    var x := XorBits(a / 2, b / 2, n - 1);
    OneBit(a % 2, b % 2, x);
    assert XorBits(a, b, n) == (a % 2 + b % 2) % 2 + 2 * x;
    if i > 0 {
      BitOfXor(a / 2, b / 2, n - 1, i - 1);
    }
  }

  lemma {:induction false} OneBit(a: nat, b: nat, x: nat)
    requires a < 2 && b < 2
    ensures var d := (a + b) % 2; d < 2 && (d + 2 * x) / 2 == x && (d + 2 * x) % 2 == d && (d + b) % 2 == a
  {
  }

  function BitRange(n: nat): nat {
    if n == 0 then 1 else 2 * BitRange(n - 1)
  }

  function Xor(a: byte, b: byte): byte {
    EightBits();
    XorBitsTwice(a, b, 8);
    XorBits(a, b, 8)
  }

  lemma {:induction false} XorTwice(a: byte, b: byte)
    ensures Xor(Xor(a, b), b) == a
  {
    EightBits();
    XorBitsTwice(a, b, 8);
  }

  lemma {:induction false} EightBits()
    ensures BitRange(8) == 256
  {
    assert BitRange(4) == 16;
  }
}
