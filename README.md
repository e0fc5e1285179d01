# libnsgif LZW bitstream reader, modelled in Dafny

This project models the code reader at the bottom of libnsgif's LZW
decoder (`src/lzw.c`). GIF image data is a chain of data sub-blocks
(GIF89a, section 15). Each sub-block is a size byte followed by that many
payload bytes, and a zero-size sub-block ends the chain. The compressed
codes run through the concatenated payloads, least significant bit first
(GIF89a, section 22 and Appendix F). A code is 1 to 12 bits wide, so it
may be spread over up to three sub-blocks.

The decoder keeps a read context (`struct lzw_read_ctx`) and has two
operations on it:

- `lzw__block_advance` steps to the next sub-block.
- `lzw__next_code` reads one code. Its fast path handles a code that lies
  inside the current sub-block. Its slow path gathers the code byte by
  byte and steps to the next sub-block whenever the current one runs out.

The model has four modules:

- `Lzw` (`lzw.dfy`) holds the result codes of `lzw_result`.
- `Bitstream` (`bits.dfy`) is the pure reference for the bit order:
  - `Bits(s)` is the bit stream of a byte sequence;
  - `Value(bits)` reads a run of bits back as a number;
  - its lemmas connect shifts, masks and disjoint-lane `|` to slices of
    that stream.
- `SubBlocks` (`subblocks.dfy`) is the sub-block layer:
  - `Advance` is one step with the decoder's bounds checks;
  - `SubBlocksFrom` is the chain of payloads that repeated steps find;
  - `Pack` is an encoder that splits a payload into sub-blocks;
  - round-trip lemmas prove the chain gives the payload back for every
    split.
- `LzwReader` (`reader.dfy`) holds the context. Its abstract value is
  `Stream`: the unread bits of the current sub-block, then the bits of
  every payload in the chain after it. The class `ReadCtx` has the
  struct's fields and the two operations as methods.
  - Every read is proved inside the current payload.
  - `NextCode` is proved against `Stream`. It succeeds exactly when the
    stream holds more than `codeSize` bits. It then returns the value of
    the first `codeSize` bits and consumes them.
  - Because the stream is the concatenation of the payloads, the codes do
    not depend on how the data was split into sub-blocks
    (`SplitDoesNotMatter`).

Notes on the modelling:

- `sb_data` is a pointer in the source. Here it is an offset into `data`
  (`sbData`).
- The `|` in the source combines bytes whose bit lanes are disjoint. It is
  written as `+`.
- `>>` and the mask `& ((1 << n) - 1)` are written as `/` and `%` by
  `Pow2`.
- `uint8_t` arithmetic that can wrap is reduced modulo 256. This is the
  third entry of `bits_used`.
- The success condition of `NextCode` is strict (`codeSize < |Stream|`).
  The code behaves this way on purpose:
  - the fast path runs only while `sb_bit + code_size < sb_bit_count`
    (`src/lzw.c:101`);
  - the slow path always reads byte `byte_advance`, the byte that holds
    the bit after the code (`src/lzw.c:127`);
  - so a code whose last bit is the last bit of the last sub-block is
    refused with that sub-block chain's end (`LZW_OK_EOD` or
    `LZW_NO_DATA`).
- When a step fails in the middle of a code, the slow path returns
  whatever `lzw__block_advance` returned. That is `LZW_NO_DATA` or
  `LZW_OK_EOD`, not always "out of data". The model returns the same.

## Model

| member | source | states |
|---|---|---|
| SubBlocks.Advance | src/lzw.c:57-76 | A step is refused unless the size byte and the whole payload lie below dataLen. A zero size gives a terminator, one byte on. Otherwise it gives the payload `data[pos+1 .. pos+size]`, and the next offset is `pos + size + 1 <= dataLen`. |
| SubBlocks.AdvanceAsWritten | src/lzw.c:63-76 | The same step with `next_block_pos + block_size` and the next offset computed in 32-bit unsigned arithmetic, as written. Any step it does not refuse starts below dataLen. |
| SubBlocks.AdvanceAsWrittenOverruns | src/lzw.c:63 | With data_len = 0xFFFFFFFF, pos = 0xFFFFFFFE and size byte 255, the wrapped check accepts a payload that ends past the input, and the next offset wraps below pos. |
| SubBlocks.AdvanceAsWrittenAgrees | src/lzw.c:63-76 | When dataLen + 256 <= 2^32, the wrapped step and the exact step are the same. |
| SubBlocks.SubBlocksFrom | src/lzw.c:26-30 | The chain read from an offset ends at or after that offset, with OkEod or NoData only. It ends with OkEod exactly when the step at its end offset finds a terminator, and with NoData exactly when that step is refused. |
| SubBlocks.Pack | src/lzw.c:26-30 | A payload split into sub-blocks of 1 to 255 bytes and a terminator takes its own length, plus one size byte per sub-block, plus one. |
| SubBlocks.PackedRoundTrip | src/lzw.c:26-30 | From data that holds a payload as sub-blocks and a terminator, the chain has one payload per sub-block. The payloads concatenate to the original, the chain ends with OkEod, and it ends at the terminator's offset. |
| SubBlocks.PackRoundTrip | src/lzw.c:26-30 | For every valid split, wherever the packed bytes sit in the input, reading the chain gives back the packed payload, one payload per sub-block, ending with OkEod at the terminator. |
| SubBlocks.ChainStep | src/lzw.c:75-78 | A chain that starts with a non-empty sub-block is that payload followed by the chain from the next offset. |
| Bitstream.BitsAt | src/lzw.c:98-99 | What `Bits` means in shift-and-mask terms: bit 8q + r of a byte sequence's stream is `(s[q] >> r) & 1`, for every byte q and bit r. |
| Bitstream.ValueBitsSnoc | src/lzw.c:129 | Or-ing a byte in at `byte << 3` above the bytes already read appends it to the run whose value the code is. |
| Bitstream.LittleEndian | src/lzw.c:104-108 | One to three bytes combined as `b2 << 16 \| b1 << 8 \| b0` give the value of their bit stream. |
| Bitstream.ExtractField | src/lzw.c:147 | `(v >> lo) & ((1 << n) - 1)` is the value of bits lo to lo + n - 1 of v's bit run, and it is below 2^n. |
| Bitstream.ValueBound | src/lzw.c:147 | A run of n bits stands for a number below 2^n. |
| LzwReader.Payload | src/lzw.c:67-68 | The current payload has sbBitCount / 8 bytes. |
| LzwReader.StreamAligned | src/lzw.c:98-103 | The unread bit stream is the byte stream from byte `sb_bit >> 3` with the first `sb_bit & 7` bits dropped. Its length is eight bits per byte minus those. |
| LzwReader.FreshStream | src/lzw.c:32 | A context at the end of its payload, in front of a payload packed into sub-blocks of any sizes, delivers exactly that payload's bits. |
| LzwReader.SplitDoesNotMatter | src/lzw.c:32 | Two contexts in front of the same payload, split into sub-blocks in two different ways, deliver the same bit stream, and so the same codes. |
| LzwReader.FastInPayload | src/lzw.c:99-109 | Under the fast path's condition, byte_advance is at most 2, and every byte the switch reads, up to `data[byte_advance]`, has an index below sb_bit_count / 8. Adding code_size to sb_bit moves on by byte_advance bytes, to the bit after the code. |
| LzwReader.FastRead | src/lzw.c:103-109 | The bytes the fast path assembles are the first bytes of the stream. Adding code_size to sb_bit leaves the context at the bit after the code. |
| LzwReader.BitsUsedStep | src/lzw.c:112-120 | Each table entry before the last ends its byte exactly. The entry for byte byte_advance stops inside that byte, at the bit after the code. A code touches at most three bytes. |
| LzwReader.Carry | src/lzw.c:130 | Moving u bits from bit c of a byte moves to the next byte exactly when c + u reaches 8. |
| LzwReader.ReadOneMore | src/lzw.c:129 | The bytes read so far are below 2^(8 * byte), so or-ing the next byte in at `byte << 3` appends it. |
| LzwReader.SlowReadByte | src/lzw.c:127-129 | While sb_bit < sb_bit_count, the byte the inner loop reads is the next byte of the code's byte stream, and it lies inside the payload. |
| LzwReader.SlowReadMid | src/lzw.c:129-131 | A turn before byte_advance finishes the current byte and moves the context to the next byte of the stream. |
| LzwReader.SlowReadLast | src/lzw.c:129-131 | The turn at byte_advance leaves the context inside that byte, at the bit after the code. |
| LzwReader.SlowStep | src/lzw.c:127-131 | One turn of the inner loop moves the context by the table's entry for that byte, and the byte stream moves with it. |
| LzwReader.SlowRead | src/lzw.c:127-131 | One turn of the inner loop keeps the slow path's invariant for one more byte: the position in the stream and the bytes or-ed into code. |
| LzwReader.AdvanceKeepsBytes | src/lzw.c:139-143 | A successful step taken at the end of the current payload leaves the byte stream unchanged. |
| LzwReader.ChainAdvance | src/lzw.c:75-78 | After a step to a non-empty sub-block, its payload followed by the new chain is the old chain. |
| LzwReader.SlowAdvance | src/lzw.c:139-143 | A successful step in the middle of a code keeps the slow path's invariant. |
| LzwReader.Exhausted | src/lzw.c:139-142 | At the end of the payload, with no payload left in the chain, the stream is empty. |
| LzwReader.SlowFail | src/lzw.c:139-142 | When a step fails before the code is complete, the stream held at most code_size bits, and nothing is left. |
| LzwReader.SlowStart | src/lzw.c:97-99 | The slow path starts with nothing read, at the first bit of the code. |
| LzwReader.SlowDone | src/lzw.c:134-136 | Once byte exceeds byte_advance, code holds the stream's bytes up to the one with the bit after the code, and the context is at that bit. |
| LzwReader.CodeOfBytes | src/lzw.c:147 | `(code >> current_bit) & ((1 << code_size) - 1)`, applied to bytes assembled low byte first, is the value of the code's bits, and it is below 2^code_size. |
| LzwReader.AfterCode | src/lzw.c:109-131 | After the code, the stream continues at bit r of byte k, where 8k + r = current_bit + code_size. |
| LzwReader.Finish | src/lzw.c:147 | Both paths end alike. The masked shift is the value of the code's bits, it is below 2^code_size and below 4096, and the context delivers the bits after the code. |
| LzwReader.CodeRead | src/lzw.c:147 | The code returned is the value of the first code_size bits of the unread stream, below 2^code_size. The context is left at the rest of the stream. |
| LzwReader.ReadCtx.constructor | src/lzw.c:34-42 | A fresh context has no current payload and stands in front of a size byte. It delivers the bits of the chain read from there. |
| LzwReader.ReadCtx.PayloadByte | src/lzw.c:103-108 | A read of `sb_data[i]` is allowed only for i below sb_bit_count / 8, and it gives byte i of the current payload. |
| LzwReader.ReadCtx.BlockAdvance | src/lzw.c:51-79 | NoData exactly when `data_sb_next >= data_len` or `data_sb_next + block_size >= data_len`, with every field unchanged. OkEod at a zero-size sub-block: the bit fields become 0, data_sb_next moves on by 1, sb_data is unchanged. Ok at a non-empty sub-block: sb_data = old data_sb_next + 1, data_sb_next moves on by size + 1, sb_bit = 0, sb_bit_count = 8 * size. After success data_sb_next <= data_len. The context invariant is kept, and the chain is related to the old one. |
| LzwReader.ReadCtx.AssembleCode | src/lzw.c:103-108 | The fall-through switch's `data[2] << 16 \| data[1] << 8 \| data[0]` is the value of the bits of the byte_advance + 1 payload bytes it reads. |
| LzwReader.ReadCtx.ReadFast | src/lzw.c:101-109 | The fast path changes only sb_bit, which grows by code_size exactly. The code holds the stream's bytes up to the one with the bit after the code. |
| LzwReader.ReadCtx.GatherBytes | src/lzw.c:126-132 | The inner loop changes only sb_bit. It stops with all of the code's bytes read or with the payload used up (sb_bit == sb_bit_count), and it keeps the slow path's invariant. |
| LzwReader.ReadCtx.NextBlock | src/lzw.c:139-143 | A step in the middle of a code either keeps the invariant, with the chain after it ending as before, or returns the chain's end with the stream too short for the code. |
| LzwReader.ReadCtx.GatherCode | src/lzw.c:122-144 | The outer loop ends in one of two ways. Either the code's bytes are gathered (Ok) and the chain after the context ends as before. Or a step failed, and its result is the chain's end. |
| LzwReader.ReadCtx.ReadSlow | src/lzw.c:110-145 | On Ok, code holds the stream's bytes up to the one with the bit after the code, the context is at that bit, and the chain after it ends as before (same end kind, same end offset). Otherwise it returns the chain's end, and the stream was at most code_size bits. |
| LzwReader.ReadCtx.NextCode | src/lzw.c:92-149 | Ok exactly when the stream holds more than code_size bits. Then code_out is the value of the first code_size bits, least significant first, below 2^code_size, and the stream is advanced by code_size. The chain ends as before (same end kind, same end offset), so a later failing read returns the same OkEod or NoData. Otherwise the chain's end (OkEod or NoData) is returned and code_out is unchanged. On the fast path only sb_bit changes, by code_size. The context invariant is kept. |

## Left out

- `lzw_context_create` and `lzw_context_destroy` (`src/lzw.h:40-49`) only allocate and free memory. Their bodies are not part of this model.
- The code that sets up a context on the input is not part of this model. `ReadCtx`'s constructor stands in for it: a context in front of a size byte, with no current payload.
- The LZW dictionary decoder (clear and end codes, code-width growth) is not present in `src/lzw.c` as given and is not modelled.
- The GIF container parser and frame compositor (`gif_initialise`, `gif_decode_frame`) are only declared in `libnsgif.h`. They are not modelled.
- The bitmap callbacks in `libnsgif.h` are foreign function pointers and are left out.
- The example driver `examples/decode_gif.c` does file I/O and printing and is left out.
- NextCode: requires codeSize between 1 and 12, the code widths GIF allows (12 is the maximum). The source does not check the width itself.
- `lzw__next_code` is one function in the source. The model splits it into the methods `ReadFast`, `AssembleCode`, `ReadSlow`, `GatherCode`, `GatherBytes` and `NextBlock`. They follow the source's blocks in the same order, and `NextCode` calls them where the source has those blocks.
- Pointer identity and aliasing of `data` and `sb_data` are not modelled. `data` is an immutable sequence and `sb_data` an offset into it.
- `lzw__block_advance`'s additions are modelled without the 32-bit wrap, which needs data_len above 2^32 - 256. The wrap is modelled separately, in `SubBlocks.AdvanceAsWritten`, under "Findings".
- `code` is a `uint32_t` in the source. The model keeps it as an unbounded integer. Its value never exceeds 2^24, so nothing wraps.

## Findings

| source | as written | input that shows it | evidently intended | confidence | as-written member | corrected member |
|---|---|---|---|---|---|---|
| src/lzw.c:63 | `(next_block_pos + block_size) >= ctx->data_len` and `ctx->data_sb_next += block_size + 1` are computed in `uint32_t`, so the sum wraps when data_len is near 2^32 | data_len = 0xFFFFFFFF, data_sb_next = 0xFFFFFFFE, size byte 255: the sum wraps to 253, the check passes, the whole 255-byte payload lies at or past data_len, and data_sb_next wraps to 254 | refuse any sub-block whose payload does not fit below data_len, computing the sum without wrapping | not executed | SubBlocks.AdvanceAsWritten, SubBlocks.AdvanceAsWrittenOverruns | SubBlocks.Advance |
