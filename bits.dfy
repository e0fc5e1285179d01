/**
 * The bit order of GIF LZW data (GIF89a, Appendix F and section 22):
 * codes are packed into bytes least significant bit first, and a code
 * that does not fit in what is left of one byte continues in the low
 * bits of the next byte.
 *
 * `Bits` turns a byte sequence into that bit stream and `Value` reads a
 * run of the stream back as a number, so "the code at bit p of width n"
 * is `Value(Bits(s)[p..p + n])`.
 */
module Bitstream {

  /** An octet of the input buffer. */
  type byte = b: int | 0 <= b < 256

  /** 2 to the power n: the value of `1 << n`. */
  function Pow2(n: nat): (r: nat)
    ensures r >= 1
  {
    if n == 0 then 1 else 2 * Pow2(n - 1)
  }

  /** The n least significant bits of x, least significant first. */
  function LowBits(x: nat, n: nat): (r: seq<bool>)
    ensures |r| == n
  {
    if n == 0 then [] else [x % 2 == 1] + LowBits(x / 2, n - 1)
  }

  /** The bit stream of a byte sequence: byte after byte, each least significant bit first. */
  function Bits(s: seq<byte>): (r: seq<bool>)
    ensures |r| == 8 * |s|
  {
    if s == [] then [] else LowBits(s[0], 8) + Bits(s[1..])
  }

  /** The number a run of bits stands for when its first bit is the least significant. */
  function Value(bits: seq<bool>): nat
  {
    if bits == [] then 0 else (if bits[0] then 1 else 0) + 2 * Value(bits[1..])
  }

  /** A product with a positive factor is at least the other factor. */
  lemma {:induction false} MulAtLeast(k: nat, d: nat)
    requires k >= 1
    ensures k * d >= d
  {
    if k > 1 {
      MulAtLeast(k - 1, d);
      assert k * d == (k - 1) * d + d;
    }
  }

  /** Doubling a sum with a product in it doubles the product's first factor. */
  lemma Twice(x: int, p: int, v: int)
    ensures 2 * (x + p * v) == 2 * x + (2 * p) * v
  {
  }

  /** Euclidean quotient and remainder are determined by the equation they satisfy. */
  lemma DivModUnique(x: int, d: int, q: int, r: int)
    requires d > 0 && 0 <= r < d && x == r + d * q
    ensures x / d == q && x % d == r
  {
    var q', r' := x / d, x % d;
    assert x == q' * d + r';
    if q > q' {
      var k := q - q';
      assert q * d == q' * d + k * d;
      MulAtLeast(k, d);
    } else if q < q' {
      var k := q' - q;
      assert q' * d == q * d + k * d;
      MulAtLeast(k, d);
    }
  }

  /** Dividing by 2 * p is halving and then dividing by p. */
  lemma HalveThenDivide(x: nat, p: nat)
    requires p > 0
    ensures x / (2 * p) == (x / 2) / p
    ensures x % (2 * p) == 2 * ((x / 2) % p) + x % 2
  {
    var q, r := (x / 2) / p, (x / 2) % p;
    assert x / 2 == q * p + r;
    assert x == (2 * r + x % 2) + (2 * p) * q;
    DivModUnique(x, 2 * p, q, 2 * r + x % 2);
  }

  /** Bit i of LowBits(x, n) is bit i of x. */
  lemma {:induction false} LowBitsAt(x: nat, n: nat, i: nat)
    requires i < n
    ensures LowBits(x, n)[i] == ((x / Pow2(i)) % 2 == 1)
  {
    if i > 0 {
      LowBitsAt(x / 2, n - 1, i - 1);
      HalveThenDivide(x, Pow2(i - 1));
    }
  }

  /** The n low bits of x read back give x modulo 2^n. */
  lemma {:induction false} ValueLowBits(x: nat, n: nat)
    ensures Value(LowBits(x, n)) == x % Pow2(n)
  {
    if n > 0 {
      var r := LowBits(x, n);
      assert r[1..] == LowBits(x / 2, n - 1);
      ValueLowBits(x / 2, n - 1);
      HalveThenDivide(x, Pow2(n - 1));
    }
  }

  /** Reading the eight bits of a byte back gives the byte. */
  lemma ValueOfByte(b: byte)
    ensures Value(LowBits(b, 8)) == b
  {
    ValueLowBits(b, 8);
    assert Pow2(8) == 256;
  }

  /** A run of k bits stands for a number below 2^k. */
  lemma {:induction false} ValueBound(bits: seq<bool>)
    ensures Value(bits) < Pow2(|bits|)
  {
    if bits != [] {
      ValueBound(bits[1..]);
    }
  }

  /** The bits of b follow those of a, so they are worth 2^|a| times as much. */
  lemma {:induction false} ValueAppend(a: seq<bool>, b: seq<bool>)
    ensures Value(a + b) == Value(a) + Pow2(|a|) * Value(b)
  {
    if a != [] {
      assert (a + b)[1..] == a[1..] + b;
      ValueAppend(a[1..], b);
      var p, head, rest, vb := Pow2(|a| - 1), if a[0] then 1 else 0, Value(a[1..]), Value(b);
      assert Value(a + b) == head + 2 * (rest + p * vb);
      assert Value(a) == head + 2 * rest;
      Twice(rest, p, vb);
      assert Pow2(|a|) == 2 * p;
    } else {
      assert a + b == b;
    }
  }

  /** Shifting right by k drops the first k bits; masking with 2^k - 1 keeps them. */
  lemma ValueSplit(bits: seq<bool>, k: nat)
    requires k <= |bits|
    ensures Value(bits) / Pow2(k) == Value(bits[k..])
    ensures Value(bits) % Pow2(k) == Value(bits[..k])
  {
    var low, high := bits[..k], bits[k..];
    assert bits == low + high;
    ValueAppend(low, high);
    ValueBound(low);
    assert |low| == k;
    DivModUnique(Value(bits), Pow2(k), Value(high), Value(low));
  }

  /** `(v >> lo) & ((1 << n) - 1)` is the value of bits lo .. lo + n - 1. */
  lemma ExtractField(bits: seq<bool>, lo: nat, n: nat)
    requires lo + n <= |bits|
    ensures (Value(bits) / Pow2(lo)) % Pow2(n) == Value(bits[lo..lo + n])
    ensures (Value(bits) / Pow2(lo)) % Pow2(n) < Pow2(n)
  {
    ValueSplit(bits, lo);
    ValueSplit(bits[lo..], n);
    assert bits[lo..][..n] == bits[lo..lo + n];
  }

  /** The bit stream of a concatenation is the concatenation of the bit streams. */
  lemma {:induction false} BitsAppend(a: seq<byte>, b: seq<byte>)
    ensures Bits(a + b) == Bits(a) + Bits(b)
  {
    if a == [] {
      assert a + b == b;
    } else {
      assert (a + b)[1..] == a[1..] + b;
      BitsAppend(a[1..], b);
    }
  }

  /** Whole bytes taken or dropped are whole octets of bits taken or dropped. */
  lemma BitsSplit(s: seq<byte>, k: nat)
    requires k <= |s|
    ensures Bits(s[..k]) == Bits(s)[..8 * k]
    ensures Bits(s[k..]) == Bits(s)[8 * k..]
  {
    assert s == s[..k] + s[k..];
    BitsAppend(s[..k], s[k..]);
  }

  /** Dropping k bytes and then r bits is dropping 8 * k + r bits. */
  lemma BytesThenBits(s: seq<byte>, k: nat, r: nat)
    requires k <= |s| && 8 * k + r <= 8 * |s|
    ensures Bits(s[k..])[r..] == Bits(s)[8 * k + r..]
  {
    BitsSplit(s, k);
    var all := Bits(s);
    assert all[8 * k..][r..] == all[8 * k + r..];
  }

  /** Bit 8 * q + r of the stream is bit r of byte q: `(s[q] >> r) & 1`. */
  lemma {:induction false} BitsAt(s: seq<byte>, q: nat, r: nat)
    requires q < |s| && r < 8
    ensures Bits(s)[8 * q + r] == ((s[q] / Pow2(r)) % 2 == 1)
  {
    var head, tail := LowBits(s[0], 8), Bits(s[1..]);
    assert Bits(s) == head + tail;
    if q == 0 {
      LowBitsAt(s[0], 8, r);
      assert Bits(s)[r] == head[r];
    } else {
      BitsAt(s[1..], q - 1, r);
      assert Bits(s)[8 * q + r] == tail[8 * (q - 1) + r];
    }
  }

  /** Appending a byte adds it, shifted left past the bytes already there. */
  lemma ValueBitsSnoc(s: seq<byte>, b: byte)
    ensures Value(Bits(s + [b])) == Value(Bits(s)) + Pow2(8 * |s|) * b
  {
    BitsAppend(s, [b]);
    var head, last := Bits(s), Bits([b]);
    assert last == LowBits(b, 8) + Bits([]);
    assert last == LowBits(b, 8);
    ValueAppend(head, last);
    ValueOfByte(b);
    assert |head| == 8 * |s|;
  }

  /** One to three bytes assembled as `b2 << 16 | b1 << 8 | b0`, lanes disjoint, make the stream value. */
  lemma {:induction false} LittleEndian(w: seq<byte>)
    requires 1 <= |w| <= 3
    ensures Value(Bits(w)) == w[0] + (if |w| >= 2 then Pow2(8) * w[1] else 0)
                                   + (if |w| == 3 then Pow2(16) * w[2] else 0)
  {
    var init, last := w[..|w| - 1], w[|w| - 1];
    assert w == init + [last];
    ValueBitsSnoc(init, last);
    if |w| > 1 {
      LittleEndian(init);
    }
  }
}
