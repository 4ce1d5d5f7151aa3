/** Byte-level helpers shared by the ciphers and hashes: big-endian encoding
    and decoding of 32- and 64-bit words, circular rotation of 32-bit
    words, and XOR of byte buffers with a fixed byte or with another
    buffer.

    Buffers are values (`seq<byte>`); the two in-place array methods at the
    end check the claim that the XOR helpers may write over their input. */
module BitOps {

  type byte = bv8

  /* -------------------------------------------------------------- rotations */

  /** Rotate `x` right by `n` bits. With `n == 0` the shift by `32 - n` is
      a shift by 32, and with `n >= 32` the shift by `n` is a shift by 32 or
      more (and `32 - n` wraps around as `unsigned`); all of these are
      undefined, so `0 < n < 32` is the precondition. The low `n` bits of
      `x` become the top `n` bits of the result, and the rest of `x` moves
      down into the low `32 - n` bits. */
  function Rotr32(x: bv32, n: bv32): (r: bv32)
    requires 0 < n < 32
    ensures r >> (32 - n) == x & ((1 << n) - 1)
    ensures r & (0xFFFF_FFFF >> n) == x >> n
  {
    (x >> n) | (x << (32 - n))
  }

  /** Rotate `x` left by `n` bits, `0 < n < 32` for the same reason: the
      top `n` bits of `x` become the low `n` bits of the result, and the
      rest of `x` moves up into the top `32 - n` bits. */
  function Rotl32(x: bv32, n: bv32): (r: bv32)
    requires 0 < n < 32
    ensures r & ((1 << n) - 1) == x >> (32 - n)
    ensures r >> n == x & (0xFFFF_FFFF >> n)
  {
    (x << n) | (x >> (32 - n))
  }

  /** Rotating right undoes rotating left by the same amount. */
  lemma RotrUndoesRotl(x: bv32, n: bv32)
    requires 0 < n < 32
    ensures Rotr32(Rotl32(x, n), n) == x
  {
  }

  /** Rotating left undoes rotating right by the same amount. */
  lemma RotlUndoesRotr(x: bv32, n: bv32)
    requires 0 < n < 32
    ensures Rotl32(Rotr32(x, n), n) == x
  {
  }

  /** A right rotation by `n` is a left rotation by `32 - n`. */
  lemma RotrIsRotlComplement(x: bv32, n: bv32)
    requires 0 < n < 32
    ensures Rotr32(x, n) == Rotl32(x, 32 - n)
  {
  }

  /* ------------------------------------------------------- big-endian codec */

  /** Decode four bytes as a big-endian 32-bit word: the result is the
      base-256 number whose most significant digit is `b[0]`. */
  function Read32Be(b: seq<byte>): (r: bv32)
    requires |b| == 4
    ensures r == b[0] as bv32 * 0x100_0000 + b[1] as bv32 * 0x1_0000 + b[2] as bv32 * 0x100 + b[3] as bv32
  {
    (b[0] as bv32 << 24) | (b[1] as bv32 << 16) | (b[2] as bv32 << 8) | (b[3] as bv32)
  }

  /** Encode a 32-bit word as four bytes, most significant first: decoding
      the bytes gives the word back. */
  function Write32Be(v: bv32): (r: seq<byte>)
    ensures |r| == 4
    ensures Read32Be(r) == v
  {
    [((v >> 24) & 0xff) as byte,
     ((v >> 16) & 0xff) as byte,
     ((v >> 8) & 0xff) as byte,
     (v & 0xff) as byte]
  }

  /** Encoding a decoded word gives the four bytes back. */
  lemma WriteRead32Be(b: seq<byte>)
    requires |b| == 4
    ensures Write32Be(Read32Be(b)) == b
  {
  }

  /** Encode a 64-bit word as eight bytes, most significant first. */
  function Write64Be(v: bv64): (r: seq<byte>)
    ensures |r| == 8
  {
    [((v >> 56) & 0xff) as byte,
     ((v >> 48) & 0xff) as byte,
     ((v >> 40) & 0xff) as byte,
     ((v >> 32) & 0xff) as byte,
     ((v >> 24) & 0xff) as byte,
     ((v >> 16) & 0xff) as byte,
     ((v >> 8) & 0xff) as byte,
     (v & 0xff) as byte]
  }

  /** The 64-bit encoding is the big-endian encoding of the high 32-bit half
      followed by that of the low half. */
  lemma Write64BeHalves(v: bv64)
    ensures Write64Be(v) == Write32Be((v >> 32) as bv32) + Write32Be((v & 0xffff_ffff) as bv32)
  {
  }

  /* -------------------------------------------------------------------- XOR */

  /** `input` with every byte XORed with `b8`. */
  function XorB8(input: seq<byte>, b8: byte): (r: seq<byte>)
    ensures |r| == |input|
    ensures forall i :: 0 <= i < |input| ==> r[i] == input[i] ^ b8
  {
    seq(|input|, i requires 0 <= i < |input| => input[i] ^ b8)
  }

  /** XORing twice with the same byte restores the input. */
  lemma XorB8Twice(input: seq<byte>, b8: byte)
    ensures XorB8(XorB8(input, b8), b8) == input
  {
  }

  /** The byte-wise XOR of two buffers of the same length. */
  function XorBB(x: seq<byte>, y: seq<byte>): (r: seq<byte>)
    requires |x| == |y|
    ensures |r| == |x|
    ensures forall i :: 0 <= i < |x| ==> r[i] == x[i] ^ y[i]
  {
    seq(|x|, i requires 0 <= i < |x| => x[i] ^ y[i])
  }

  /** XORing with `y` twice restores `x`. */
  lemma XorBBCancel(x: seq<byte>, y: seq<byte>)
    requires |x| == |y|
    ensures XorBB(XorBB(x, y), y) == x
  {
  }

  /** A buffer XORed with itself is all zero bytes. */
  lemma XorBBSelf(x: seq<byte>)
    ensures XorBB(x, x) == seq(|x|, _ => 0 as byte)
  {
  }

  /* ------------------------------------------- in-place (aliasing) versions */

  /** `out[0..len) := input[0..len) ^ b8`. `out` and `input` may be the same
      array: each element is read before it is overwritten. */
  method XorB8Into(out: array<byte>, input: array<byte>, b8: byte, len: nat)
    requires len <= out.Length && len <= input.Length
    modifies out
    ensures forall i :: 0 <= i < len ==> out[i] == old(input[i]) ^ b8
    ensures out[..len] == XorB8(old(input[..len]), b8)
    ensures forall i :: len <= i < out.Length ==> out[i] == old(out[i])
  {
    var i := 0;
    while i < len
      invariant i <= len
      invariant forall j :: 0 <= j < i ==> out[j] == old(input[j]) ^ b8
      invariant forall j :: i <= j < input.Length ==> input[j] == old(input[j])
      invariant forall j :: i <= j < out.Length ==> out[j] == old(out[j])
    {
      out[i] := input[i] ^ b8;
      i := i + 1;
    }
  }

  /** `out[0..len) := x[0..len) ^ y[0..len)`. Any of the three arrays may be
      the same array. */
  method XorBBInto(out: array<byte>, x: array<byte>, y: array<byte>, len: nat)
    requires len <= out.Length && len <= x.Length && len <= y.Length
    modifies out
    ensures forall i :: 0 <= i < len ==> out[i] == old(x[i]) ^ old(y[i])
    ensures out[..len] == XorBB(old(x[..len]), old(y[..len]))
    ensures forall i :: len <= i < out.Length ==> out[i] == old(out[i])
  {
    var i := 0;
    while i < len
      invariant i <= len
      invariant forall j :: 0 <= j < i ==> out[j] == old(x[j]) ^ old(y[j])
      invariant forall j :: i <= j < x.Length ==> x[j] == old(x[j])
      invariant forall j :: i <= j < y.Length ==> y[j] == old(y[j])
      invariant forall j :: i <= j < out.Length ==> out[j] == old(out[j])
    {
      out[i] := x[i] ^ y[i];
      i := i + 1;
    }
  }
}
