/**
 * GIF data sub-blocks (GIF89a, section 15): LZW data is a chain of
 * sub-blocks, each a size byte followed by that many data bytes; a
 * sub-block of size 0 terminates the chain.
 *
 * `Advance` is one step of the reader along the chain, with the bounds
 * checks of the decoder; `SubBlocksFrom` is the whole chain that repeated
 * steps find from an offset; `Pack` is the encoder's side, splitting a
 * payload into sub-blocks, and `PackRoundTrip` says the chain gives the
 * payload back whatever the split.
 */
module SubBlocks {
  import opened Bitstream
  import opened Lzw

  const U32_LIMIT: int := 0x1_0000_0000

  /** An unsigned 32-bit integer. */
  type u32 = x: int | 0 <= x < 0x1_0000_0000

  /** What one step from a size byte finds. */
  datatype Step =
    | Refused                                  // the size byte or the payload is past the input
    | Terminator(next: nat)                    // a zero-size sub-block
    | Block(start: nat, size: nat, next: nat)  // a payload data[start..start + size]

  /**
   * The step from the size byte at pos, in the first dataLen bytes of data:
   * refused unless the size byte and the whole payload are inside them.
   */
  function Advance(data: seq<byte>, dataLen: nat, pos: nat): (s: Step)
    requires dataLen <= |data|
    ensures !s.Refused? ==> pos < dataLen && pos < s.next <= dataLen
    ensures s.Terminator? ==> data[pos] == 0
    ensures s.Block? ==> 0 < s.size == data[pos] && s.start + s.size == s.next <= dataLen
  {
    if pos >= dataLen then Refused
    else if pos + data[pos] >= dataLen then Refused
    else if data[pos] == 0 then Terminator(pos + 1)
    else Block(pos + 1, data[pos], pos + data[pos] + 1)
  }

  /** x reduced to 32 bits, as unsigned C arithmetic does. */
  function Wrap32(x: int): u32
  {
    x % U32_LIMIT
  }

  /**
   * The same step with the sums computed in 32-bit unsigned arithmetic,
   * as the decoder computes them: `next_block_pos + block_size` in the
   * payload check and `data_sb_next + block_size + 1` for the next offset.
   */
  function AdvanceAsWritten(data: seq<byte>, dataLen: u32, pos: u32): (s: Step)
    requires dataLen <= |data|
    ensures !s.Refused? ==> pos < dataLen
  {
    if pos >= dataLen then Refused
    else if Wrap32(pos + data[pos]) >= dataLen then Refused
    else if data[pos] == 0 then Terminator(Wrap32(pos + 1))
    else Block(pos + 1, data[pos], Wrap32(pos + data[pos] + 1))
  }

  /**
   * Near the 32-bit limit the wrapped check lets through a payload that
   * runs past the input, and the next offset wraps back below pos.
   */
  lemma AdvanceAsWrittenOverruns()
    ensures var data := seq<byte>(0xFFFF_FFFF, _ => 255);
            var s := AdvanceAsWritten(data, 0xFFFF_FFFF, 0xFFFF_FFFE);
            s.Block? && s.start + s.size > 0xFFFF_FFFF && s.next < 0xFFFF_FFFE
  {
  }

  /** Below the limit the wrapped and the exact steps agree. */
  lemma AdvanceAsWrittenAgrees(data: seq<byte>, dataLen: u32, pos: u32)
    requires dataLen <= |data| && dataLen + 256 <= U32_LIMIT
    ensures AdvanceAsWritten(data, dataLen, pos) == Advance(data, dataLen, pos)
  {
  }

  /**
   * A chain of sub-blocks: the payloads in order, how it ended (OkEod at a
   * terminator, NoData where a step was refused) and the offset of the
   * size byte where it ended.
   */
  datatype Chain = Chain(payloads: seq<seq<byte>>, end: LzwResult, endPos: nat)

  /** The concatenation of a sequence of payloads. */
  function Flatten(ps: seq<seq<byte>>): seq<byte>
  {
    if ps == [] then [] else ps[0] + Flatten(ps[1..])
  }

  /** The chain that repeated steps find from the size byte at pos. */
  function SubBlocksFrom(data: seq<byte>, dataLen: nat, pos: nat): (c: Chain)
    requires dataLen <= |data|
    ensures pos <= c.endPos
    ensures c.end == OkEod || c.end == NoData
    ensures c.end == OkEod <==> Advance(data, dataLen, c.endPos).Terminator?
    ensures c.end == NoData <==> Advance(data, dataLen, c.endPos).Refused?
    decreases dataLen - pos
  {
    match Advance(data, dataLen, pos)
    case Refused => Chain([], NoData, pos)
    case Terminator(_) => Chain([], OkEod, pos)
    case Block(start, size, next) =>
      var rest := SubBlocksFrom(data, dataLen, next);
      Chain([data[start..start + size]] + rest.payloads, rest.end, rest.endPos)
  }

  /**
   * sizes split n bytes into sub-blocks: each of 1 to 255 bytes (the
   * largest a size byte can announce), n in all.
   */
  predicate ValidSplit(sizes: seq<nat>, n: nat)
  {
    if sizes == [] then n == 0
    else 1 <= sizes[0] <= 255 && sizes[0] <= n && ValidSplit(sizes[1..], n - sizes[0])
  }

  /** The payload b written as the sub-blocks of the given sizes and a terminator. */
  function Pack(b: seq<byte>, sizes: seq<nat>): (r: seq<byte>)
    requires ValidSplit(sizes, |b|)
    ensures |r| == |b| + |sizes| + 1
  {
    if sizes == [] then [0]
    else [sizes[0]] + b[..sizes[0]] + Pack(b[sizes[0]..], sizes[1..])
  }

  /** A chain that starts with a payload is that payload followed by the chain after it. */
  lemma ChainStep(data: seq<byte>, dataLen: nat, pos: nat)
    requires dataLen <= |data| && Advance(data, dataLen, pos).Block?
    ensures var s := Advance(data, dataLen, pos);
            var here, rest := data[s.start..s.start + s.size], SubBlocksFrom(data, dataLen, s.next);
            SubBlocksFrom(data, dataLen, pos) == Chain([here] + rest.payloads, rest.end, rest.endPos) &&
            Flatten([here] + rest.payloads) == here + Flatten(rest.payloads)
  {
    var s := Advance(data, dataLen, pos);
    var here, rest := data[s.start..s.start + s.size], SubBlocksFrom(data, dataLen, s.next);
    assert ([here] + rest.payloads)[1..] == rest.payloads;
  }

  /**
   * data holds, from the size byte at pos, the payload b split into
   * sub-blocks of the given sizes and then a terminator, each size byte
   * and payload inside the first dataLen bytes.
   */
  predicate PackedAt(data: seq<byte>, dataLen: nat, pos: nat, b: seq<byte>, sizes: seq<nat>)
    requires dataLen <= |data|
    decreases sizes
  {
    if sizes == [] then b == [] && pos < dataLen && data[pos] == 0
    else
      var size := sizes[0];
      1 <= size <= 255 && size <= |b| && pos + size < dataLen && data[pos] == size &&
      data[pos + 1..pos + 1 + size] == b[..size] &&
      PackedAt(data, dataLen, pos + 1 + size, b[size..], sizes[1..])
  }

  /**
   * Reading a packed payload back: from the first size byte the chain
   * has one payload per sub-block, they concatenate to b, and it ends at
   * the terminator.
   */
  lemma {:induction false} PackedRoundTrip(data: seq<byte>, dataLen: nat, pos: nat, b: seq<byte>, sizes: seq<nat>)
    requires dataLen <= |data| && PackedAt(data, dataLen, pos, b, sizes)
    ensures var c := SubBlocksFrom(data, dataLen, pos);
            Flatten(c.payloads) == b && |c.payloads| == |sizes| &&
            c.end == OkEod && c.endPos == pos + |b| + |sizes|
    decreases sizes
  {
    if sizes == [] {
      assert SubBlocksFrom(data, dataLen, pos) == Chain([], OkEod, pos);
    } else {
      var size := sizes[0];
      assert b[..size] + b[size..] == b;
      assert Advance(data, dataLen, pos) == Block(pos + 1, size, pos + 1 + size);
      ChainStep(data, dataLen, pos);
      PackedRoundTrip(data, dataLen, pos + 1 + size, b[size..], sizes[1..]);
    }
  }

  /** Splitting a window of a concatenation at the seam. */
  lemma ConcatAt(pre: seq<byte>, x: seq<byte>, y: seq<byte>, post: seq<byte>)
    ensures (pre + (x + y) + post)[|pre|..|pre| + |x|] == x
    ensures pre + (x + y) + post == (pre + x) + y + post
  {
    var d := pre + (x + y) + post;
    forall k | 0 <= k < |x| ensures d[|pre|..|pre| + |x|][k] == x[k] {
      assert d[|pre| + k] == (x + y)[k];
    }
  }

  /** What Pack writes, wherever it is placed, is packed in the sense of PackedAt. */
  lemma {:induction false} PackIsPackedAt(pre: seq<byte>, b: seq<byte>, sizes: seq<nat>, post: seq<byte>)
    requires ValidSplit(sizes, |b|)
    ensures var data := pre + Pack(b, sizes) + post;
            PackedAt(data, |data|, |pre|, b, sizes)
    decreases sizes
  {
    var data := pre + Pack(b, sizes) + post;
    if sizes == [] {
      assert data[|pre|] == Pack(b, sizes)[0];
    } else {
      var size := sizes[0];
      var head, rest := [size] + b[..size], Pack(b[size..], sizes[1..]);
      ConcatAt(pre, head, rest, post);
      ConcatAt(pre, [size], b[..size] + rest, post);
      ConcatAt(pre + [size], b[..size], rest, post);
      assert data == (pre + head) + rest + post;
      PackIsPackedAt(pre + head, b[size..], sizes[1..], post);
    }
  }

  /** The chain read from a packed payload, wherever it sits in the input, gives the payload back. */
  lemma PackRoundTrip(pre: seq<byte>, b: seq<byte>, sizes: seq<nat>, post: seq<byte>)
    requires ValidSplit(sizes, |b|)
    ensures var data := pre + Pack(b, sizes) + post;
            var c := SubBlocksFrom(data, |data|, |pre|);
            Flatten(c.payloads) == b && |c.payloads| == |sizes| &&
            c.end == OkEod && c.endPos == |pre| + |b| + |sizes|
  {
    var data := pre + Pack(b, sizes) + post;
    PackIsPackedAt(pre, b, sizes, post);
    PackedRoundTrip(data, |data|, |pre|, b, sizes);
  }
}
