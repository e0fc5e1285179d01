/**
 * The LZW read context of the decoder (`struct lzw_read_ctx`) and its two
 * operations: stepping to the next data sub-block and reading one code.
 *
 * The abstract value of a context is the bit stream it has still to
 * deliver: the unread bits of the current sub-block followed by the bits
 * of every payload the chain of sub-blocks after it holds (`Stream`).
 * Reading a code of n bits returns the value of the first n bits of that
 * stream and leaves the rest; stepping to the next sub-block leaves the
 * stream as it is.
 */
module LzwReader {
  import opened Bitstream
  import opened Lzw
  import opened SubBlocks

  /** A read context as a value: the input, the offset of the next size byte and the current sub-block. */
  datatype CtxState = CtxState(
    data: seq<byte>,   // the input buffer
    dataLen: nat,      // how much of it is input
    dataSbNext: nat,   // offset of the next sub-block's size byte
    sbData: nat,       // offset of the current sub-block's payload
    sbBit: nat,        // bits of the current payload already read
    sbBitCount: nat)   // bits in the current payload

  /**
   * The invariants of a context: the current payload is a whole number of
   * bytes, at most one sub-block long, inside the input, and the read
   * position is inside it.
   */
  predicate Wf(s: CtxState)
  {
    s.dataLen <= |s.data| && s.sbBit <= s.sbBitCount <= 8 * 255 && s.sbBitCount % 8 == 0 &&
    s.sbData + s.sbBitCount / 8 <= s.dataLen
  }

  /** The payload of the current sub-block. */
  function Payload(s: CtxState): (p: seq<byte>)
    requires Wf(s)
    ensures 8 * |p| == s.sbBitCount
  {
    s.data[s.sbData..s.sbData + s.sbBitCount / 8]
  }

  /** The chain of sub-blocks after the current one. */
  function TailChain(s: CtxState): Chain
    requires Wf(s)
  {
    SubBlocksFrom(s.data, s.dataLen, s.dataSbNext)
  }

  /** The bit stream still to be read: the rest of the current payload, then the payloads after it. */
  function Stream(s: CtxState): seq<bool>
    requires Wf(s)
  {
    Bits(Payload(s))[s.sbBit..] + Bits(Flatten(TailChain(s).payloads))
  }

  /** The bytes still to be read, from the byte that holds the next bit. */
  function StreamBytes(s: CtxState): seq<byte>
    requires Wf(s)
  {
    Payload(s)[s.sbBit / 8..] + Flatten(TailChain(s).payloads)
  }

  /** x split at its byte: the byte offset and the bit inside it. */
  lemma ByteAndBit(x: nat)
    ensures x == 8 * (x / 8) + x % 8 && x % 8 < 8
  {
  }

  /** Dropping n = 8 * k + r bits of a byte stream with more after it, as bytes and then bits. */
  lemma DropAligned(p: seq<byte>, f: seq<byte>, n: nat, k: nat, r: nat)
    requires n == 8 * k + r && r < 8 && n <= 8 * |p| && k <= |p|
    ensures r <= 8 * |p[k..] + f|
    ensures Bits(p)[n..] + Bits(f) == Bits(p[k..] + f)[r..]
  {
    BitsAppend(p[k..], f);
    BytesThenBits(p, k, r);
    DropFront(Bits(p[k..]), Bits(f), r);
  }

  /** Dropping r bits from the front of x + y, with x at least r long, drops them from x. */
  lemma DropFront(x: seq<bool>, y: seq<bool>, r: nat)
    requires r <= |x|
    ensures (x + y)[r..] == x[r..] + y
  {
  }

  /** The bit stream is the byte stream without the bits of its first byte already read. */
  lemma StreamAligned(s: CtxState)
    requires Wf(s)
    ensures s.sbBit % 8 <= 8 * |StreamBytes(s)|
    ensures Stream(s) == Bits(StreamBytes(s))[s.sbBit % 8..]
    ensures |Stream(s)| == 8 * |StreamBytes(s)| - s.sbBit % 8
  {
    ByteAndBit(s.sbBit);
    DropAligned(Payload(s), Flatten(TailChain(s).payloads), s.sbBit, s.sbBit / 8, s.sbBit % 8);
  }

  /** Reading u more bits of the current payload drops the bytes they finish from the byte stream. */
  lemma SkipBits(s: CtxState, u: nat)
    requires Wf(s) && s.sbBit + u <= s.sbBitCount
    ensures var t := s.(sbBit := s.sbBit + u);
            Wf(t) && (s.sbBit + u) / 8 - s.sbBit / 8 <= |StreamBytes(s)| &&
            StreamBytes(t) == StreamBytes(s)[(s.sbBit + u) / 8 - s.sbBit / 8..]
  {
    var t := s.(sbBit := s.sbBit + u);
    var i, j := s.sbBit / 8, (s.sbBit + u) / 8;
    assert i <= j <= s.sbBitCount / 8;
    assert Payload(t) == Payload(s) && TailChain(t) == TailChain(s);
    DropFurther(Payload(s), Flatten(TailChain(s).payloads), s.sbBit / 8, (s.sbBit + u) / 8);
  }

  /** Dropping i and then j - i more bytes of p followed by f is dropping j bytes of p. */
  lemma DropFurther(p: seq<byte>, f: seq<byte>, i: nat, j: nat)
    requires i <= j <= |p|
    ensures j - i <= |p[i..] + f| && (p[i..] + f)[j - i..] == p[j..] + f
  {
    assert p[i..][j - i..] == p[j..];
    assert (p[i..] + f)[j - i..] == p[i..][j - i..] + f;
  }

  /** SkipBits for u bits known to finish d bytes. */
  lemma SkipBitsBy(s: CtxState, u: nat, d: nat)
    requires Wf(s) && s.sbBit + u <= s.sbBitCount && (s.sbBit + u) / 8 == s.sbBit / 8 + d
    ensures var t := s.(sbBit := s.sbBit + u);
            Wf(t) && d <= |StreamBytes(s)| && StreamBytes(t) == StreamBytes(s)[d..]
  {
    SkipBits(s, u);
  }

  /** Before the end of the current payload, the next bytes of the stream are the payload bytes at the read position. */
  lemma NextBytes(s: CtxState, n: nat)
    requires Wf(s) && s.sbBit / 8 + n <= s.sbBitCount / 8
    ensures n <= |StreamBytes(s)|
    ensures forall i :: 0 <= i < n ==> StreamBytes(s)[i] == s.data[s.sbData + s.sbBit / 8 + i]
  {
  }

  /** The first n bytes of the stream, while inside the current payload, are payload bytes. */
  lemma PrefixOfStream(s: CtxState, n: nat)
    requires Wf(s) && s.sbBit / 8 + n <= s.sbBitCount / 8
    ensures n <= |StreamBytes(s)|
    ensures StreamBytes(s)[..n] == Payload(s)[s.sbBit / 8..s.sbBit / 8 + n]
  {
    var p, first := Payload(s), s.sbBit / 8;
    assert StreamBytes(s)[..n] == p[first..][..n];
  }

  /**
   * A successful step to a non-empty sub-block, taken at the end of the
   * current payload, leaves the byte stream as it was.
   */
  lemma AdvanceKeepsBytes(s: CtxState, t: CtxState)
    requires Wf(s) && Wf(t) && s.sbBit == s.sbBitCount && t.sbBit == 0
    requires TailChain(s).payloads == [Payload(t)] + TailChain(t).payloads
    ensures StreamBytes(t) == StreamBytes(s)
  {
    var ps := TailChain(s).payloads;
    assert ps[1..] == TailChain(t).payloads;
    assert Payload(s)[s.sbBit / 8..] == [];
    assert Payload(t)[0..] == Payload(t);
  }

  /** At the end of the current payload, with the chain after it empty, nothing is left to read. */
  lemma Exhausted(s: CtxState)
    requires Wf(s) && s.sbBit == s.sbBitCount && TailChain(s).payloads == []
    ensures StreamBytes(s) == [] && Stream(s) == []
  {
    assert Payload(s)[s.sbBit / 8..] == [];
    assert Bits(Payload(s))[s.sbBit..] == [];
  }

  /**
   * A context at the end of its payload and in front of the payload b,
   * packed into sub-blocks of any sizes, delivers exactly the bits of b:
   * the codes read do not depend on how b was split.
   */
  lemma FreshStream(s: CtxState, b: seq<byte>, sizes: seq<nat>)
    requires Wf(s) && s.sbBit == s.sbBitCount
    requires PackedAt(s.data, s.dataLen, s.dataSbNext, b, sizes)
    ensures Stream(s) == Bits(b)
  {
    PackedRoundTrip(s.data, s.dataLen, s.dataSbNext, b, sizes);
    assert Bits(Payload(s))[s.sbBit..] == [];
  }

  /** Two contexts in front of the same payload, split in two ways, deliver the same bit stream. */
  lemma SplitDoesNotMatter(s: CtxState, t: CtxState, b: seq<byte>, sizes: seq<nat>, other: seq<nat>)
    requires Wf(s) && s.sbBit == s.sbBitCount && PackedAt(s.data, s.dataLen, s.dataSbNext, b, sizes)
    requires Wf(t) && t.sbBit == t.sbBitCount && PackedAt(t.data, t.dataLen, t.dataSbNext, b, other)
    ensures Stream(s) == Stream(t)
  {
    FreshStream(s, b, sizes);
    FreshStream(t, b, other);
  }

  /**
   * The slow path's table of how many bits each byte of the code supplies:
   * what is left of the first byte, then up to eight, then what remains,
   * in 8-bit unsigned arithmetic.
   */
  function BitsUsed(currentBit: nat, codeSize: nat): seq<byte>
    requires currentBit < 8 && codeSize <= 12
  {
    var remaining0 := if codeSize < 8 - currentBit then codeSize else 8 - currentBit;
    var remaining1 := codeSize - remaining0;
    [remaining0, if remaining1 < 8 then remaining1 else 8, (remaining1 - 8) % 256]
  }

  /**
   * For a code whose first bit is bit currentBit of the first byte and
   * whose bit after it lies in byte `advance`: the byte the slow path is
   * in after reading `read` bytes (its first byte, then one byte further
   * per byte read, staying in the last) ...
   */
  function CodeByte(advance: nat, read: nat): nat
  {
    if read <= advance then read else advance
  }

  /** ... and the bit inside that byte: the code's first bit, then 0, then the bit after the code. */
  function CodeBit(currentBit: nat, codeSize: nat, advance: nat, read: nat): int
  {
    if read == 0 then currentBit
    else if read <= advance then 0
    else currentBit + codeSize - 8 * advance
  }

  /**
   * Each entry of the table in use finishes the byte it reads, except the
   * last, which stops inside it at the bit after the code; a code takes at
   * most three bytes.
   */
  lemma BitsUsedStep(currentBit: nat, codeSize: nat, advance: nat, read: nat)
    requires currentBit < 8 && 1 <= codeSize <= 12 && read <= advance
    requires 8 * advance <= currentBit + codeSize < 8 * advance + 8
    ensures advance <= 2
    ensures var used, bit := BitsUsed(currentBit, codeSize)[read], CodeBit(currentBit, codeSize, advance, read);
            var bit' := CodeBit(currentBit, codeSize, advance, read + 1);
            0 <= bit < 8 &&
            (read < advance ==> bit + used == 8 && bit' == 0) &&
            (read == advance ==> bit + used < 8 && bit' == bit + used)
  {
  }

  /** Moving u bits from bit c of a byte finishes that byte exactly when c + u reaches 8. */
  lemma Carry(x: nat, u: nat)
    requires x % 8 + u <= 8
    ensures x % 8 + u == 8 ==> (x + u) / 8 == x / 8 + 1 && (x + u) % 8 == 0
    ensures x % 8 + u < 8 ==> (x + u) / 8 == x / 8 && (x + u) % 8 == x % 8 + u
  {
    ByteAndBit(x);
  }

  /**
   * `(code >> current_bit) & ((1 << code_size) - 1)`, with code the first
   * n bytes assembled low byte first and the code inside them, is the
   * value of the code's bits of the stream.
   */
  lemma CodeOfBytes(w: seq<byte>, currentBit: nat, codeSize: nat, n: nat)
    requires currentBit + codeSize <= 8 * n && n <= |w|
    ensures var v := Value(Bits(w[..n]));
            var bits := Bits(w)[currentBit..];
            codeSize <= |bits| &&
            (v / Pow2(currentBit)) % Pow2(codeSize) == Value(bits[..codeSize]) &&
            (v / Pow2(currentBit)) % Pow2(codeSize) < Pow2(codeSize)
  {
    BitsSplit(w, n);
    var all, head := Bits(w), Bits(w[..n]);
    ExtractField(head, currentBit, codeSize);
    WindowOfPrefix(all, 8 * n, currentBit, codeSize);
  }

  /** A window of a prefix is the same window of the whole. */
  lemma WindowOfPrefix(all: seq<bool>, m: nat, lo: nat, n: nat)
    requires lo + n <= m <= |all|
    ensures all[..m][lo..lo + n] == all[lo..][..n]
  {
  }

  /** Dropping a bits and then b bits is dropping c = a + b bits. */
  lemma DropTwice(bits: seq<bool>, a: nat, b: nat, c: nat)
    requires c == a + b <= |bits|
    ensures bits[a..][b..] == bits[c..]
  {
  }

  /** Once the code is read, the rest of the stream starts at the bit after it, bit r of byte k. */
  lemma AfterCode(w: seq<byte>, currentBit: nat, codeSize: nat, k: nat, r: nat)
    requires k <= |w| && 8 * k + r == currentBit + codeSize <= 8 * |w|
    ensures Bits(w[k..])[r..] == Bits(w)[currentBit..][codeSize..]
  {
    BytesThenBits(w, k, r);
    DropTwice(Bits(w), currentBit, codeSize, 8 * k + r);
  }

  /** A larger exponent gives a larger power of two. */
  lemma {:induction false} Pow2Monotone(a: nat, b: nat)
    requires a <= b
    ensures Pow2(a) <= Pow2(b)
  {
    if a < b {
      Pow2Monotone(a, b - 1);
    }
  }

  /**
   * What the slow path of `lzw__next_code` keeps between steps, for a code
   * of codeSize bits starting at bit currentBit of the byte stream w: after
   * `read` bytes of w, the context delivers w from byte CodeByte, inside
   * it at bit CodeBit, and code holds the bytes read, low byte first.
   */
  ghost predicate SlowInv(s: CtxState, w: seq<byte>, currentBit: nat, codeSize: nat, advance: nat, read: nat, code: int)
  {
    SlowPos(s, w, currentBit, codeSize, advance, read) && code == Value(Bits(w[..read]))
  }

  /** The position part of SlowInv. */
  ghost predicate SlowPos(s: CtxState, w: seq<byte>, currentBit: nat, codeSize: nat, advance: nat, read: nat)
  {
    Wf(s) && read <= |w| && CodeByte(advance, read) <= |w| &&
    StreamBytes(s) == w[CodeByte(advance, read)..] &&
    s.sbBit % 8 == CodeBit(currentBit, codeSize, advance, read)
  }

  /**
   * The two paths of `lzw__next_code` end alike: code holds the bytes of
   * start's stream up to the one with the bit after the code, low byte
   * first, and s is at that bit.
   */
  ghost predicate CodeGathered(start: CtxState, s: CtxState, codeSize: nat, code: int)
  {
    Wf(start) && Gathered(StreamBytes(start), start.sbBit % 8, s, codeSize, code)
  }

  /**
   * CodeGathered for the byte stream w with the code at bit currentBit of
   * its first byte: code holds w up to the byte with the bit after the
   * code, and s is at that bit.
   */
  ghost predicate Gathered(w: seq<byte>, currentBit: nat, s: CtxState, codeSize: nat, code: int)
  {
    Wf(s) &&
    var q := currentBit + codeSize;
    q / 8 < |w| && StreamBytes(s) == w[q / 8..] && s.sbBit % 8 == q % 8 && code == Value(Bits(w[..q / 8 + 1]))
  }

  /**
   * s and t are in front of chains that end alike: in the same way
   * (terminator or refused step) and at the same offset. A read that
   * succeeds keeps this, so a later read that fails returns the same end.
   */
  ghost predicate SameEnd(s: CtxState, t: CtxState)
  {
    Wf(s) && Wf(t) && TailChain(s).end == TailChain(t).end && TailChain(s).endPos == TailChain(t).endPos
  }

  /** The slow path starts with nothing read. */
  lemma SlowStart(s: CtxState, codeSize: nat, advance: nat)
    requires Wf(s)
    ensures SlowInv(s, StreamBytes(s), s.sbBit % 8, codeSize, advance, 0, 0)
  {
    assert StreamBytes(s)[..0] == [];
    assert Bits([]) == [];
  }

  /** Or-ing the next byte in above the bytes read so far (their lanes are disjoint) appends it to them. */
  lemma ReadOneMore(w: seq<byte>, read: nat, code: int)
    requires read < |w| && code == Value(Bits(w[..read]))
    ensures code < Pow2(8 * read)
    ensures code + w[read] * Pow2(8 * read) == Value(Bits(w[..read + 1]))
  {
    ValueBitsSnoc(w[..read], w[read]);
    assert w[..read] + [w[read]] == w[..read + 1];
    ValueBound(Bits(w[..read]));
  }

  /** In the slow path, the byte at the read position is the next byte of w. */
  lemma SlowReadByte(s: CtxState, w: seq<byte>, currentBit: nat, codeSize: nat, advance: nat, read: nat)
    requires SlowPos(s, w, currentBit, codeSize, advance, read) && read <= advance && s.sbBit < s.sbBitCount
    ensures s.sbBit / 8 < s.sbBitCount / 8 && read < |w| && w[read] == Payload(s)[s.sbBit / 8]
  {
    NextBytes(s, 1);
  }

  /**
   * One turn of the inner loop before the code's last byte: the table's
   * entry, used, finishes the byte, and the context moves to the next one.
   */
  lemma SlowReadMid(s: CtxState, w: seq<byte>, currentBit: nat, codeSize: nat, advance: nat, read: nat, used: nat)
    requires read < advance && read < |w|
    requires SlowPos(s, w, currentBit, codeSize, advance, read) && s.sbBit < s.sbBitCount
    requires s.sbBit % 8 + used == 8 && CodeBit(currentBit, codeSize, advance, read + 1) == 0
    ensures SlowPos(s.(sbBit := s.sbBit + used), w, currentBit, codeSize, advance, read + 1)
  {
    NextBytes(s, 1);
    Carry(s.sbBit, used);
    SkipBitsBy(s, used, 1);
    DropOne(w, read);
    assert CodeByte(advance, read + 1) == read + 1;
  }

  /**
   * The turn that reads the code's last byte: the table's entry, used,
   * stops inside it, at the bit after the code.
   */
  lemma SlowReadLast(s: CtxState, w: seq<byte>, currentBit: nat, codeSize: nat, advance: nat, read: nat, used: nat)
    requires read == advance && read < |w|
    requires SlowPos(s, w, currentBit, codeSize, advance, read) && s.sbBit < s.sbBitCount
    requires s.sbBit % 8 + used < 8 && CodeBit(currentBit, codeSize, advance, read + 1) == s.sbBit % 8 + used
    ensures SlowPos(s.(sbBit := s.sbBit + used), w, currentBit, codeSize, advance, read + 1)
  {
    Carry(s.sbBit, used);
    SameByte(s, used);
    assert CodeByte(advance, read + 1) == read;
  }

  /** Reading u more bits that stay inside the current byte leaves the byte stream as it is. */
  lemma SameByte(s: CtxState, u: nat)
    requires Wf(s) && s.sbBit + u <= s.sbBitCount && (s.sbBit + u) / 8 == s.sbBit / 8
    ensures var t := s.(sbBit := s.sbBit + u);
            Wf(t) && StreamBytes(t) == StreamBytes(s)
  {
    var t := s.(sbBit := s.sbBit + u);
    assert Payload(t) == Payload(s) && TailChain(t) == TailChain(s);
  }

  /** Dropping one more byte. */
  lemma DropOne(w: seq<byte>, i: nat)
    requires i < |w|
    ensures w[i..][1..] == w[i + 1..]
  {
  }

  /** One turn of the inner loop moves the position part of SlowInv on by one byte. */
  lemma SlowStep(s: CtxState, w: seq<byte>, currentBit: nat, codeSize: nat, advance: nat, read: nat)
    requires currentBit < 8 && 1 <= codeSize <= 12 && read <= advance && read < |w|
    requires 8 * advance <= currentBit + codeSize < 8 * advance + 8
    requires SlowPos(s, w, currentBit, codeSize, advance, read) && s.sbBit < s.sbBitCount
    ensures SlowPos(s.(sbBit := s.sbBit + BitsUsed(currentBit, codeSize)[read]), w, currentBit, codeSize, advance, read + 1)
  {
    BitsUsedStep(currentBit, codeSize, advance, read);
    var used := BitsUsed(currentBit, codeSize)[read];
    if read < advance {
      SlowReadMid(s, w, currentBit, codeSize, advance, read, used);
    } else {
      SlowReadLast(s, w, currentBit, codeSize, advance, read, used);
    }
  }

  /** One turn of the inner loop keeps SlowInv for one more byte. */
  lemma SlowRead(s: CtxState, t: CtxState, w: seq<byte>, currentBit: nat, codeSize: nat, advance: nat, read: nat,
                 code: int, next: byte, code': int)
    requires currentBit < 8 && 1 <= codeSize <= 12 && read <= advance
    requires 8 * advance <= currentBit + codeSize < 8 * advance + 8
    requires SlowInv(s, w, currentBit, codeSize, advance, read, code) && s.sbBit < s.sbBitCount
    requires t == s.(sbBit := s.sbBit + BitsUsed(currentBit, codeSize)[read])
    requires s.sbBit / 8 < s.sbBitCount / 8 && next == Payload(s)[s.sbBit / 8]
    requires code' == code + next * Pow2(8 * read)
    ensures SlowInv(t, w, currentBit, codeSize, advance, read + 1, code')
  {
    SlowReadByte(s, w, currentBit, codeSize, advance, read);
    SlowStep(s, w, currentBit, codeSize, advance, read);
    ReadOneMore(w, read, code);
  }

  /** A read position before the end of the payload is inside one of its bytes. */
  lemma InPayload(s: CtxState)
    requires Wf(s) && s.sbBit < s.sbBitCount
    ensures s.sbBit / 8 < s.sbBitCount / 8
  {
  }

  /** With the code's last byte read, SlowInv says where the context is and what code holds. */
  lemma SlowDone(s: CtxState, start: CtxState, codeSize: nat, advance: nat, code: int)
    requires Wf(start) && 8 * advance <= start.sbBit % 8 + codeSize < 8 * advance + 8
    requires SlowInv(s, StreamBytes(start), start.sbBit % 8, codeSize, advance, advance + 1, code)
    ensures CodeGathered(start, s, codeSize, code)
  {
    var q := start.sbBit % 8 + codeSize;
    ByteAndBit(q);
    DivModUnique(q, 8, advance, q - 8 * advance);
    assert CodeByte(advance, advance + 1) == q / 8;
  }

  /** A successful step to the next sub-block at the end of the current payload keeps SlowInv. */
  lemma SlowAdvance(s: CtxState, t: CtxState, w: seq<byte>, currentBit: nat, codeSize: nat, advance: nat, read: nat, code: int)
    requires SlowInv(s, w, currentBit, codeSize, advance, read, code) && s.sbBit == s.sbBitCount
    requires Wf(t) && t.sbBit == 0 && TailChain(s).payloads == [Payload(t)] + TailChain(t).payloads
    ensures SlowInv(t, w, currentBit, codeSize, advance, read, code)
  {
    AdvanceKeepsBytes(s, t);
  }

  /**
   * A failed step to the next sub-block, with the code not complete, means
   * the stream held at most codeSize bits, and nothing is left.
   */
  lemma SlowFail(s: CtxState, w: seq<byte>, currentBit: nat, codeSize: nat, advance: nat, read: nat, code: int)
    requires read <= advance && 8 * advance <= currentBit + codeSize
    requires SlowInv(s, w, currentBit, codeSize, advance, read, code) && s.sbBit == s.sbBitCount
    requires TailChain(s).payloads == []
    ensures codeSize >= 8 * |w| - currentBit
    ensures Stream(s) == []
  {
    Exhausted(s);
  }

  /**
   * The fast path's condition keeps every byte the switch reads, up to the
   * one holding the bit after the code, inside the current payload; the
   * code touches at most three bytes, and moving on by codeSize bits lands
   * byteAdvance bytes further, at the bit after the code.
   */
  lemma FastInPayload(s: CtxState, codeSize: nat)
    requires Wf(s) && 1 <= codeSize <= 12 && s.sbBit + codeSize < s.sbBitCount
    ensures (s.sbBit % 8 + codeSize) / 8 <= 2
    ensures s.sbBit / 8 + (s.sbBit % 8 + codeSize) / 8 < s.sbBitCount / 8
    ensures (s.sbBit + codeSize) / 8 == s.sbBit / 8 + (s.sbBit % 8 + codeSize) / 8
    ensures (s.sbBit + codeSize) % 8 == (s.sbBit % 8 + codeSize) % 8
  {
    ByteAndBit(s.sbBit);
  }

  /**
   * ... they are the first bytes of the stream, and moving on by the code
   * size leaves the context at the bit after the code.
   */
  lemma FastRead(s: CtxState, t: CtxState, codeSize: nat, code: int)
    requires Wf(s) && 1 <= codeSize <= 12 && s.sbBit + codeSize < s.sbBitCount
    requires t == s.(sbBit := s.sbBit + codeSize)
    requires var first, advance := s.sbBit / 8, (s.sbBit % 8 + codeSize) / 8;
             first + advance < s.sbBitCount / 8 &&
             code == Value(Bits(Payload(s)[first..first + advance + 1]))
    ensures CodeGathered(s, t, codeSize, code)
  {
    var advance, first := (s.sbBit % 8 + codeSize) / 8, s.sbBit / 8;
    FastInPayload(s, codeSize);
    SkipBitsBy(s, codeSize, advance);
    PrefixOfStream(s, advance + 1);
    var w := StreamBytes(s);
    assert StreamBytes(t) == w[advance..] && t.sbBit % 8 == (s.sbBit % 8 + codeSize) % 8;
    assert code == Value(Bits(w[..advance + 1]));
  }

  /**
   * The end of both paths: with the bytes of w up to the one holding the
   * bit after the code read into code, the masked shift is the code's
   * value and s delivers the bits of w after the code.
   */
  lemma Finish(s: CtxState, w: seq<byte>, currentBit: nat, codeSize: nat, code: int)
    requires codeSize <= 12 && Gathered(w, currentBit, s, codeSize, code)
    ensures var bits := Bits(w)[currentBit..];
            codeSize < |bits| &&
            (code / Pow2(currentBit)) % Pow2(codeSize) == Value(bits[..codeSize]) &&
            (code / Pow2(currentBit)) % Pow2(codeSize) < Pow2(codeSize) &&
            (code / Pow2(currentBit)) % Pow2(codeSize) < 4096 &&
            Stream(s) == bits[codeSize..]
  {
    var k, r := (currentBit + codeSize) / 8, (currentBit + codeSize) % 8;
    ByteAndBit(currentBit + codeSize);
    CodeOfBytes(w, currentBit, codeSize, k + 1);
    AfterCode(w, currentBit, codeSize, k, r);
    StreamAligned(s);
    Pow2Monotone(codeSize, 12);
    assert Pow2(12) == 4096;
  }

  /**
   * Both paths together: a context s that the bytes of start's stream up
   * to the one holding the bit after the code were read from, into code,
   * yields by the masked shift the value of the first codeSize bits of
   * start's stream, and delivers the rest of it.
   */
  lemma CodeRead(start: CtxState, s: CtxState, codeSize: nat, code: int)
    requires codeSize <= 12 && CodeGathered(start, s, codeSize, code)
    ensures var cb := start.sbBit % 8;
            codeSize < |Stream(start)| &&
            (code / Pow2(cb)) % Pow2(codeSize) == Value(Stream(start)[..codeSize]) &&
            (code / Pow2(cb)) % Pow2(codeSize) < Pow2(codeSize) &&
            (code / Pow2(cb)) % Pow2(codeSize) < 4096 &&
            Stream(s) == Stream(start)[codeSize..]
  {
    Finish(s, StreamBytes(start), start.sbBit % 8, codeSize, code);
    StreamAligned(start);
  }

  /** A step to a non-empty sub-block: its payload becomes the current one, and the chain after it remains. */
  lemma ChainAdvance(s: CtxState, t: CtxState)
    requires Wf(s) && Wf(t) && t.data == s.data && t.dataLen == s.dataLen
    requires Advance(s.data, s.dataLen, s.dataSbNext) == Block(t.sbData, t.sbBitCount / 8, t.dataSbNext)
    ensures TailChain(s) == Chain([Payload(t)] + TailChain(t).payloads, TailChain(t).end, TailChain(t).endPos)
  {
    ChainStep(s.data, s.dataLen, s.dataSbNext);
  }

  /** The read context of the decoder. */
  class ReadCtx {
    const data: seq<byte>     // the buffer the codes are read from
    const dataLen: u32        // how many bytes of it hold input
    var dataSbNext: u32       // where the size byte after the current sub-block sits
    var sbData: nat           // where the current payload starts in data
    var sbBit: u32            // bits of the current payload consumed so far
    var sbBitCount: u32       // eight times the current payload's size

    /** The fields as a value. */
    ghost function State(): CtxState
      reads this
    {
      CtxState(data, dataLen, dataSbNext, sbData, sbBit, sbBitCount)
    }

    ghost predicate Valid()
      reads this
    {
      Wf(State())
    }

    /** A context with no current payload, in front of the size byte at start. */
    constructor (data: seq<byte>, dataLen: u32, start: u32)
      requires dataLen <= |data|
      ensures Valid() && this.data == data && this.dataLen == dataLen
      ensures dataSbNext == start && sbData == 0 && sbBit == 0 && sbBitCount == 0
      ensures Stream(State()) == Bits(Flatten(SubBlocksFrom(data, dataLen, start).payloads))
    {
      this.data, this.dataLen := data, dataLen;
      dataSbNext, sbData, sbBit, sbBitCount := start, 0, 0, 0;
    }

    /** Byte i of the current payload; reading past its end is ruled out. */
    function PayloadByte(i: nat): (b: byte)
      reads this
      requires Valid() && i < sbBitCount / 8
      ensures b == Payload(State())[i]
    {
      data[sbData + i]
    }

    /**
     * Step to the next sub-block (`lzw__block_advance`). NoData, changing
     * nothing, when the size byte or the payload would lie at or past
     * dataLen; OkEod at a zero-size sub-block, past which it moves; Ok at a
     * non-empty one, which becomes the current payload, unread.
     */
    method BlockAdvance() returns (res: LzwResult)
      requires Valid()
      modifies this
      ensures Valid()
      ensures var p: int := old(dataSbNext);
              res == NoData <==> p >= dataLen || p + data[p] >= dataLen
      ensures res == NoData ==> State() == old(State())
      ensures var p: int := old(dataSbNext);
              res == OkEod ==> data[p] == 0 && sbBit == 0 && sbBitCount == 0 &&
                               dataSbNext == p + 1 && sbData == old(sbData)
      ensures var p: int := old(dataSbNext);
              res == Ok ==> data[p] > 0 && sbData == p + 1 && sbBit == 0 &&
                            sbBitCount == 8 * (data[p] as int) && dataSbNext == p + data[p] + 1
      ensures res == Ok || res == OkEod || res == NoData
      ensures res != NoData ==> dataSbNext <= dataLen
      ensures res == Ok ==> TailChain(old(State())) ==
                            Chain([Payload(State())] + TailChain(State()).payloads,
                                  TailChain(State()).end, TailChain(State()).endPos)
      ensures res != Ok ==> TailChain(old(State())) == Chain([], res, old(dataSbNext))
    {
      ghost var before := State();
      var nextBlockPos: int := dataSbNext;
      if nextBlockPos >= dataLen {
        return NoData;
      }
      var blockSize: int := data[nextBlockPos];
      if nextBlockPos + blockSize >= dataLen {
        return NoData;
      }
      sbBit := 0;
      sbBitCount := blockSize * 8;
      if blockSize == 0 {
        dataSbNext := dataSbNext + 1;
        return OkEod;
      }
      sbData := nextBlockPos + 1;
      dataSbNext := dataSbNext + blockSize + 1;
      ChainAdvance(before, State());
      return Ok;
    }

    /**
     * The switch of the fast path: the advance + 1 payload bytes from byte
     * first, or-ed together low byte first (their lanes are disjoint, so
     * `|` is `+`), are the value of their bits.
     */
    method AssembleCode(first: nat, advance: nat) returns (code: int)
      requires Valid() && advance <= 2 && first + advance < sbBitCount / 8
      ensures code == Value(Bits(Payload(State())[first..first + advance + 1]))
    {
      ghost var w := Payload(State())[first..first + advance + 1];
      LittleEndian(w);
      code := 0;
      if advance == 2 {
        var b2 := PayloadByte(first + 2);
        assert b2 == w[2];
        code := code + Pow2(16) * b2;
      }
      if advance >= 1 {
        var b1 := PayloadByte(first + 1);
        assert b1 == w[1];
        code := code + Pow2(8) * b1;
      }
      var b0 := PayloadByte(first);
      assert b0 == w[0];
      code := code + b0;
    }

    /**
     * The fast path of `lzw__next_code`: the code and the byte after it lie
     * inside the current payload. It assembles the bytes the code touches
     * and moves on by codeSize bits.
     */
    method ReadFast(codeSize: nat) returns (code: int)
      requires Valid() && 1 <= codeSize <= 12 && sbBit + codeSize < sbBitCount
      modifies this`sbBit
      ensures Valid() && State() == old(State()).(sbBit := old(sbBit) + codeSize)
      ensures CodeGathered(old(State()), State(), codeSize, code)
    {
      ghost var s := State();
      FastInPayload(s, codeSize);
      code := AssembleCode(sbBit / 8, (sbBit % 8 + codeSize) / 8);
      sbBit := sbBit + codeSize;
      FastRead(s, State(), codeSize, code);
    }

    /**
     * The inner loop of the slow path: or each byte of the current payload
     * into code, shifted past the bytes before it, and move on by the bits
     * the table says it supplies, until the code's last byte is in or the
     * payload is used up.
     */
    method GatherBytes(ghost w: seq<byte>, currentBit: nat, codeSize: nat, byteAdvance: nat, bitsUsed: seq<byte>,
                       byte0: nat, code0: int) returns (byte: nat, code: int)
      requires currentBit < 8 && 1 <= codeSize <= 12 && byte0 <= byteAdvance
      requires 8 * byteAdvance <= currentBit + codeSize < 8 * byteAdvance + 8
      requires bitsUsed == BitsUsed(currentBit, codeSize)
      requires SlowInv(State(), w, currentBit, codeSize, byteAdvance, byte0, code0)
      modifies this`sbBit
      ensures byte0 <= byte <= byteAdvance + 1 && (byte <= byteAdvance ==> sbBit == sbBitCount)
      ensures SlowInv(State(), w, currentBit, codeSize, byteAdvance, byte, code)
      ensures State() == old(State()).(sbBit := sbBit)
    {
      byte, code := byte0, code0;
      while byte <= byteAdvance && sbBit < sbBitCount
        invariant byte0 <= byte <= byteAdvance + 1
        invariant SlowInv(State(), w, currentBit, codeSize, byteAdvance, byte, code)
        decreases byteAdvance + 1 - byte
      {
        ghost var before, codeBefore := State(), code;
        InPayload(before);
        var next := PayloadByte(sbBit / 8);
        code := code + next * Pow2(8 * byte);
        sbBit := sbBit + bitsUsed[byte];
        SlowRead(before, State(), w, currentBit, codeSize, byteAdvance, byte, codeBefore, next, code);
        byte := byte + 1;
      }
    }

    /**
     * The slow path's step to the next sub-block, with the current one used
     * up before the code is complete: on success SlowInv holds of the new
     * sub-block and the chain after it ends where it did; otherwise the
     * stream was too short for the code.
     */
    method NextBlock(ghost start: CtxState, ghost w: seq<byte>, currentBit: nat, codeSize: nat, byteAdvance: nat,
                     byte: nat, code: int)
      returns (res: LzwResult)
      requires byte <= byteAdvance && 8 * byteAdvance <= currentBit + codeSize
      requires SlowInv(State(), w, currentBit, codeSize, byteAdvance, byte, code) && sbBit == sbBitCount
      requires SameEnd(start, State())
      modifies this
      ensures res == Ok ==> SlowInv(State(), w, currentBit, codeSize, byteAdvance, byte, code) &&
                            SameEnd(start, State()) && old(dataSbNext) < dataSbNext <= dataLen
      ensures res != Ok ==> Valid() && res == TailChain(start).end && codeSize >= 8 * |w| - currentBit
      ensures res == NoData ==> Stream(State()) == [] && dataSbNext == TailChain(start).endPos
      ensures res == OkEod ==> sbBit == 0 && sbBitCount == 0 && dataSbNext == TailChain(start).endPos + 1
    {
      ghost var here := State();
      res := BlockAdvance();
      if res != Ok {
        SlowFail(here, w, currentBit, codeSize, byteAdvance, byte, code);
        return;
      }
      SlowAdvance(here, State(), w, currentBit, codeSize, byteAdvance, byte, code);
    }

    /**
     * The outer loop of the slow path: gather bytes from the current
     * payload and step to the next sub-block whenever it is used up, until
     * the code's last byte is in (Ok, with SlowInv past that byte) or a
     * step fails (the chain's end, with the stream too short for the code).
     */
    method GatherCode(ghost w: seq<byte>, currentBit: nat, codeSize: nat, byteAdvance: nat, bitsUsed: seq<byte>)
      returns (res: LzwResult, code: int)
      requires currentBit < 8 && 1 <= codeSize <= 12
      requires 8 * byteAdvance <= currentBit + codeSize < 8 * byteAdvance + 8
      requires bitsUsed == BitsUsed(currentBit, codeSize)
      requires SlowInv(State(), w, currentBit, codeSize, byteAdvance, 0, 0)
      modifies this
      ensures Valid()
      ensures res == Ok ==> SlowInv(State(), w, currentBit, codeSize, byteAdvance, byteAdvance + 1, code)
      ensures res == Ok ==> SameEnd(old(State()), State())
      ensures res != Ok ==> res == TailChain(old(State())).end && codeSize >= 8 * |w| - currentBit
      ensures res == NoData ==> Stream(State()) == [] && dataSbNext == TailChain(old(State())).endPos
      ensures res == OkEod ==> sbBit == 0 && sbBitCount == 0 &&
                               dataSbNext == TailChain(old(State())).endPos + 1
    {
      ghost var start := State();
      var byte: nat := 0;
      code := 0;
      while true
        invariant byte <= byteAdvance
        invariant SlowInv(State(), w, currentBit, codeSize, byteAdvance, byte, code)
        invariant SameEnd(start, State())
        modifies this
        decreases dataLen - dataSbNext
      {
        byte, code := GatherBytes(w, currentBit, codeSize, byteAdvance, bitsUsed, byte, code);
        if byte > byteAdvance {
          break;
        }
        res := NextBlock(start, w, currentBit, codeSize, byteAdvance, byte, code);
        if res != Ok {
          return;
        }
      }
      res := Ok;
    }

    /**
     * The slow path of `lzw__next_code`: gather a code byte by byte,
     * stepping to the next sub-block whenever the current one is used up.
     * On success the bytes up to the one holding the bit after the code are
     * in code, low byte first, and the context is at that bit; a failed step
     * returns the chain's end, with the stream too short for the code.
     */
    method ReadSlow(codeSize: nat) returns (res: LzwResult, code: int)
      requires Valid() && 1 <= codeSize <= 12
      modifies this
      ensures Valid()
      ensures res == Ok ==> CodeGathered(old(State()), State(), codeSize, code)
      ensures res == Ok ==> SameEnd(old(State()), State())
      ensures res != Ok ==> res == TailChain(old(State())).end &&
                            codeSize >= 8 * |StreamBytes(old(State()))| - old(sbBit) % 8
      ensures res == NoData ==> Stream(State()) == [] && dataSbNext == TailChain(old(State())).endPos
      ensures res == OkEod ==> sbBit == 0 && sbBitCount == 0 &&
                               dataSbNext == TailChain(old(State())).endPos + 1
    {
      ghost var start := State();
      var currentBit := sbBit % 8;
      var byteAdvance := (currentBit + codeSize) / 8;
      ByteAndBit(currentBit + codeSize);
      var bitsUsed := BitsUsed(currentBit, codeSize);
      SlowStart(start, codeSize, byteAdvance);
      res, code := GatherCode(StreamBytes(start), currentBit, codeSize, byteAdvance, bitsUsed);
      if res == Ok {
        SlowDone(State(), start, codeSize, byteAdvance, code);
      }
    }

    /**
     * Read the next code of codeSize bits (`lzw__next_code`). It succeeds
     * exactly when the stream holds more than codeSize bits, since it also
     * reads the byte that holds the bit after the code; then the code is
     * the value of the first codeSize bits, least significant first, and
     * they are consumed. Otherwise the chain's end is returned, code_out is
     * not written, and the bits read so far are lost.
     */
    method NextCode(codeSize: nat, codeOut: array<u32>) returns (res: LzwResult)
      requires Valid() && 1 <= codeSize <= 12 && codeOut.Length == 1
      modifies this, codeOut
      ensures Valid()
      ensures res == Ok <==> codeSize < |Stream(old(State()))|
      ensures res == Ok ==> codeOut[0] as int == Value(Stream(old(State()))[..codeSize]) &&
                            codeOut[0] < Pow2(codeSize) &&
                            Stream(State()) == Stream(old(State()))[codeSize..]
      ensures res == Ok ==> SameEnd(old(State()), State())
      ensures res != Ok ==> res == TailChain(old(State())).end && codeOut[0] == old(codeOut[0])
      ensures res == NoData ==> Stream(State()) == [] && dataSbNext == TailChain(old(State())).endPos
      ensures res == OkEod ==> sbBit == 0 && sbBitCount == 0 &&
                               dataSbNext == TailChain(old(State())).endPos + 1
      ensures old(sbBit + codeSize < sbBitCount) ==>
                res == Ok && sbBit == old(sbBit) + codeSize && dataSbNext == old(dataSbNext) &&
                sbData == old(sbData) && sbBitCount == old(sbBitCount)
    {
      ghost var start := State();
      var code: int;
      var currentBit := sbBit % 8;
      if sbBit + codeSize < sbBitCount {
        code := ReadFast(codeSize);
      } else {
        res, code := ReadSlow(codeSize);
        if res != Ok {
          StreamAligned(start);
          return;
        }
      }
      CodeRead(start, State(), codeSize, code);
      codeOut[0] := (code / Pow2(currentBit)) % Pow2(codeSize);
      res := Ok;
    }
  }
}
