# cifra block-wise engine and bit helpers, in Dafny

This project models the two small shared layers that cifra's hashes and
stream-mode ciphers are built on, and proves properties of the model.

- **The block-wise streaming engine** (`src/blockwise.h`) has two halves.
  - `cf_blockwise_accumulate` and `cf_blockwise_accumulate_final` collect
    input of any length in a caller-owned buffer `partial`. The buffer is
    front-filled with `npartial` valid bytes. Each complete `nblock`-byte
    block goes to the `process` callback. With the final variant, a block
    that ends exactly at the end of the input goes to `process_final`.
  - `cf_blockwise_xor` XORs input with a keystream that the `newblock`
    callback generates one block at a time into `partial`. Unused keystream
    stays cached in the last `npartial` bytes of the block (the buffer is
    back-filled).
- **The bit helpers** (`bitops.h`): 32-bit rotations, big-endian encoding
  of 32- and 64-bit words, and XOR of a buffer with a byte or with another
  buffer.

Buffers are values (`seq<byte>`, `byte = bv8`). The callbacks are not run:
- an accumulate call returns the ordered list of calls it would make (`Call`:
  which callback, which block);
- an XOR call is given the blocks the generator would produce, in order, and
  reports how many it used.

The algorithm modelled is the reading the header's contracts give:
- top up a pending block;
- hand on whole blocks straight from the input;
- buffer the rest (accumulate), or use the cached keystream first and then
  fresh blocks, caching the unused tail of the last one (XOR).

`cf_blockwise_accumulate` is modelled as the final variant with `process`
in both roles (`Blockwise.AccumulateWith`).

Modules:
- `BitOps` (bitops.dfy): `rotr32` and `rotl32`, the big-endian codec and the
  XOR helpers, plus in-place array versions of `xor_b8` and `xor_bb` that
  check the aliasing claims.
- `Chunking` (chunking.dfy): cutting a stream into blocks, joining blocks,
  and writing into a buffer. The two engine halves share these.
- `Blockwise` (blockwise.dfy): the accumulating half.
- `BlockwiseXor` (blockwise_xor.dfy): the keystream half.

## Model

| member | source | states |
|---|---|---|
| Blockwise.AccumulateWith | src/blockwise.h:13-56 | After any call, less than one block is pending (`npartial < nblock`) and every block handed on is exactly `nblock` bytes. The blocks handed on, followed by the new pending bytes, are the old pending bytes followed by the input. Only the block that ends the input with nothing left pending goes to the last-block callback. Empty input makes no call and changes nothing. |
| Blockwise.Drain | src/blockwise.h:23-25 | With nothing pending, the whole blocks of the input are handed on and the rest is buffered at the front. Together they are the input, and less than a block stays buffered. |
| Blockwise.TopUpBlock | src/blockwise.h:16-19 | The first block of a call that had bytes pending is those bytes followed by the input bytes copied in to complete them. |
| Blockwise.Accumulate | src/blockwise.h:13-31 | `cf_blockwise_accumulate`: byte conservation, blocks of exactly `nblock` bytes, `npartial < nblock` afterwards, every call goes to `process`, and empty input changes nothing. Buffer bytes past the first block are never touched. |
| Blockwise.AccumulateFinal | src/blockwise.h:33-56 | `cf_blockwise_accumulate_final`: as `Accumulate`, except that `process_final` receives a block exactly when it is the last call and nothing is left buffered. So it is called at most once, only last, and not at all when input stays buffered. |
| Blockwise.AccumulateFinalAgrees | src/blockwise.h:33-36 | The final variant leaves the same buffer and `npartial`, and hands on the same blocks in the same order, as the plain one. |
| Blockwise.AccumulateSplit | src/blockwise.h:13-19 | Feeding `x` and then `y` makes exactly the calls, in order, that feeding `x + y` at once makes, and leaves the same `npartial` and pending bytes. |
| Blockwise.AccumulateAll | src/blockwise.h:13-19 | A run of calls over a list of chunks keeps the buffer invariant `npartial < nblock` and leaves the buffer past the first block alone. |
| Blockwise.AccumulateChunking | src/blockwise.h:13-19 | However the input is cut into chunks, the run of calls makes the same processing calls, and leaves the same pending bytes, as one call on the whole input. |
| Blockwise.AccumulateThenFinal | src/blockwise.h:48-49 | A plain call followed by one final call on non-empty input makes the calls of a single final call on all of it. The earlier plain call never pre-empts `process_final`. |
| Blockwise.FinalSamePending | src/blockwise.h:33-56 | Two buffers with the same pending bytes make a final call hand on the same calls and leave the same pending bytes, whatever stale bytes lie past `npartial`. |
| Blockwise.ChunksThenFinal | src/blockwise.h:13-56 | Any run of plain calls followed by one final call on non-empty input makes the calls of a single final call on all of it, and leaves the same pending bytes. |
| Blockwise.FinalTwelveBytes | src/blockwise.h:45-49 | Twelve bytes in four-byte blocks from an empty buffer: `process` gets bytes 0-3 and 4-7, `process_final` gets bytes 8-11, and nothing is left pending. |
| Blockwise.FinalElevenBytes | src/blockwise.h:48-49 | Eleven bytes: two blocks go to `process`, `process_final` is not called, and the last three bytes stay pending. |
| Blockwise.FinalTopUp | src/blockwise.h:16-25 | Two bytes pending and six arriving: the first block is the two pending bytes plus two input bytes, and the last four input bytes go to `process_final`. |
| Chunking.Blocks | src/blockwise.h:23-25 | Every block cut from a stream is exactly `nblock` bytes long. |
| Chunking.BlocksThenLeftover | src/blockwise.h:13-19 | The whole blocks of a stream, joined, followed by the remainder, give the stream back. |
| Chunking.SplitUnique | src/blockwise.h:13-19 | A stream cut into whole blocks plus a remainder shorter than a block can be cut that way in only one way. This makes the pending state a function of the bytes fed. |
| BlockwiseXor.XorFresh | src/blockwise.h:72-73 | With the cache empty: one fresh block per `nblock` input bytes, plus one for a shorter remainder. The output is the input XORed with those blocks in order, and the unused tail of the last block becomes the cache. |
| BlockwiseXor.Xor | src/blockwise.h:58-79 | `cf_blockwise_xor`: `output[i] == input[i] ^ K[i]`, where `K` is the cached tail `partial[nblock-npartial..nblock]` followed by the fresh blocks, none skipped. Afterwards the cache followed by the unused blocks is `K` past the input, and `npartial <= nblock`. A block is generated only when the input outruns the cache, and the buffer's first block is the last block generated. Empty input changes nothing. |
| BlockwiseXor.FromCache | src/blockwise.h:62-66 | When the cached keystream covers the input, no block is generated. The output uses the front of the cache, and the rest of the cache stays at the end of the buffer. |
| BlockwiseXor.Refill | src/blockwise.h:62-73 | When the input outruns the cache, the whole cache is used first, then at least one fresh block. Less than a block stays cached, taken from the last block generated, which now fills the front of the buffer. |
| BlockwiseXor.XorBuffer | src/blockwise.h:62-68 | After a call, the buffer's first block is the last keystream block generated (or unchanged if none was), and the rest of the buffer is untouched. |
| BlockwiseXor.ResumeUnique | src/blockwise.h:62-66 | A keystream position is fixed by the cached bytes (less than a block) and the number of fresh blocks still to come. |
| BlockwiseXor.XorSplit | src/blockwise.h:62-66 | XORing `x` and then `y` gives the output that XORing `x + y` at once gives, generates as many blocks in all, and leaves an identical buffer and `npartial`. |
| BlockwiseXor.XorSplitNonEmpty | src/blockwise.h:62-66 | `XorSplit` when both parts are non-empty. |
| BlockwiseXor.XorAll | src/blockwise.h:75-79 | A run of calls over a list of chunks produces one output byte per input byte and keeps the cache valid. |
| BlockwiseXor.XorChunking | src/blockwise.h:58-66 | However the input is cut into calls, the joined output, the number of blocks generated and the final buffer are those of a single call. |
| BlockwiseXor.XorSameLength | src/blockwise.h:62-66 | The blocks generated and the buffer left behind depend only on the input's length, not on its bytes. |
| BlockwiseXor.XorInverse | src/blockwise.h:58-71 | XORing the output again from the same cache with the same keystream gives the input back. |
| BlockwiseXor.XorRoundTrip | src/blockwise.h:58-71 | Encrypting in one sequence of calls and decrypting in a different one gives the plaintext back. The decrypting side may start from any buffer that caches the same keystream bytes (two fresh instances cache none) and must draw the same blocks. From the very same buffer, both sides also end in the same state. |
| BlockwiseXor.SixBytes | src/blockwise.h:58-74 | Four-byte blocks, empty cache, six input bytes: two blocks are generated. The output is the input XORed with the first block and the front half of the second, and the back half of the second stays cached (`npartial == 2`). |
| BitOps.Read32Be | bitops.h:20-27 | The decoded word is the base-256 number whose most significant digit is `buf[0]`. |
| BitOps.Write32Be | bitops.h:29-36 | Encoding produces four bytes that decode back to the word. By `Read32Be`, the most significant byte comes first. |
| BitOps.WriteRead32Be | bitops.h:20-36 | Encoding a decoded word gives the four bytes back. |
| BitOps.Write64Be | bitops.h:38-49 | Encoding a 64-bit word produces eight bytes. |
| BitOps.Write64BeHalves | bitops.h:38-49 | The 64-bit encoding is the 32-bit encoding of the high half followed by that of the low half. |
| BitOps.XorB8 | bitops.h:51-57 | `out[i] == in[i] ^ b8` for every `i < len`. |
| BitOps.XorB8Twice | bitops.h:51-57 | XORing twice with the same byte restores the input. |
| BitOps.XorBB | bitops.h:59-65 | `out[i] == x[i] ^ y[i]` for every `i < len`. |
| BitOps.XorBBCancel | bitops.h:59-65 | `xor_bb(xor_bb(x, y), y) == x`. |
| BitOps.XorBBSelf | bitops.h:59-65 | `xor_bb(x, x)` is all zero bytes. |
| BitOps.XorB8Into | bitops.h:51-57 | In place on arrays, `out` possibly the same array as `in`: the first `len` bytes become the old input XOR `b8`, and nothing past `len` is written. |
| BitOps.XorBBInto | bitops.h:59-65 | In place on arrays, any of the three possibly the same: the first `len` bytes become the old `x` XOR old `y`, and nothing past `len` is written. |
| BitOps.Rotr32 | bitops.h:6-11 | `rotr32` for `0 < n < 32`, the C shift-or expression on `bv32`: the low `n` bits of `x` become the top `n` bits of the result, and the high `32 - n` bits of `x` become its low bits. |
| BitOps.Rotl32 | bitops.h:13-18 | `rotl32` for `0 < n < 32`, the C shift-or expression on `bv32`: the top `n` bits of `x` become the low `n` bits of the result, and the low `32 - n` bits of `x` become its top bits. |
| BitOps.RotrUndoesRotl | bitops.h:6-18 | For `0 < n < 32`, `rotr32(rotl32(x, n), n) == x`. |
| BitOps.RotlUndoesRotr | bitops.h:6-18 | For `0 < n < 32`, `rotl32(rotr32(x, n), n) == x`. |
| BitOps.RotrIsRotlComplement | bitops.h:6-18 | For `0 < n < 32`, `rotr32(x, n) == rotl32(x, 32 - n)`. |

## Left out

- The C bodies in `src/blockwise.c` are not part of this model. The
  algorithm follows the header's contracts: top-up, then whole blocks, then
  the remainder.
- The `ctx` pointer and the callbacks' side effects. Accumulate returns the
  calls it makes. XOR takes the generator's blocks as a list and reports how
  many it used. The list is assumed long enough for the input
  (`|input| <= npartial + blocks * nblock`), which models a generator that
  never runs dry.
- The zero-copy detail. The model says which bytes each block holds, not
  whether the pointer passed to `process` points into `partial` or into the
  input.
- Pointer aliasing between `input` and `output` in `cf_blockwise_xor`.
  Buffers are values. Aliasing is checked only for `xor_b8` and `xor_bb`,
  by their array versions, and only whole-buffer aliasing (the same array);
  partly overlapping buffers are not modelled.
- `size_t` and `uint8_t *` arithmetic: lengths are unbounded naturals.
- C undefined behaviour:
  - in `rotr32` and `rotl32`, `n == 0` makes the shift by `32 - n` a shift
    by 32, and `n >= 32` makes the shift by `n` a shift by 32 or more, with
    `32 - n` wrapping around; all of these are undefined, so `0 < n < 32` is
    a precondition;
  - `read32_be` shifts a promoted `int` into the sign bit, so the shifts are
    modelled as unsigned bit-vector operations.
- Blockwise.Accumulate: the header leaves `npartial` on entry free. The model
  requires `npartial < nblock`, which every call leaves behind.
- Blockwise.AccumulateSplit: claims equal calls, `npartial` and pending bytes
  only. The buffer bytes past `npartial` are left-over copies of earlier input
  and can differ between one call and several.
- Blockwise.AccumulateChunking: the same restriction as
  `Blockwise.AccumulateSplit`, for the same reason.
- BitOps.Write32Be: most-significant-byte-first is stated through
  `Read32Be`'s base-256 digits and the round trip, not as one shift formula
  per byte.
- BitOps.Write64Be: there is no 64-bit decoder in the header, so the
  encoding is related to two 32-bit encodings instead of to a round trip.
- BlockwiseXor.XorRoundTrip: the equal end state is claimed only when both
  sides start from the very same buffer. Buffers that cache the same
  keystream can still differ in bytes the engine never reads again.
- `src/arm/main.c` (cycle counting, stack painting and semihosting output),
  and the AES, SHA-256/512 and curve25519 code it calls, are not part of this
  model. They would only be callbacks here.
