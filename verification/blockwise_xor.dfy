/** The keystream half of the block-wise engine (cf_blockwise_xor). Input is
    XORed with a keystream that is generated one `nblock`-byte block at a
    time into the caller's `partial` buffer; keystream a call does not use
    stays cached at the END of the buffer for the next call.

    The generator is not run: a call is given the blocks it would produce,
    in order, and reports how many of them it used. */
module BlockwiseXor {
  import opened BitOps
  import opened Chunking

  /** The caller-owned buffer `partial` and the number of unused keystream
      bytes at its end. */
  datatype KeystreamCache = KeystreamCache(partial: seq<byte>, npartial: nat) {

    /** The buffer holds at least one block and no more than one block of
        keystream is cached. */
    predicate Valid(nblock: nat)
    {
      0 < nblock <= |partial| && npartial <= nblock
    }

    /** The cached keystream: the last `npartial` bytes of the first block. */
    function Cached(nblock: nat): seq<byte>
      requires Valid(nblock)
    {
      partial[nblock - npartial..nblock]
    }

    /** The keystream a call can draw on, in the order it is used: the
        cached bytes, then the blocks still to be generated. */
    function Available(nblock: nat, ks: seq<seq<byte>>): seq<byte>
      requires Valid(nblock)
    {
      Cached(nblock) + Concat(ks)
    }
  }

  /** The buffer after a call, the output, and how many fresh keystream
      blocks the call generated. */
  datatype XorResult = XorResult(cache: KeystreamCache, output: seq<byte>, used: nat)

  /** XOR `data` with keystream from fresh blocks only, the cache being
      empty: one block is generated into the front of `partial` per
      `nblock` bytes, and one more for a shorter remainder, whose unused
      tail becomes the cache. */
  function XorFresh(partial: seq<byte>, nblock: nat, data: seq<byte>, ks: seq<seq<byte>>): (r: XorResult)
    requires 0 < nblock <= |partial| && Uniform(ks, nblock)
    requires |data| <= |Concat(ks)|
    ensures r.output == XorBB(data, Concat(ks)[..|data|])
    ensures r.used <= |ks|
    ensures r.cache.Valid(nblock)
    ensures |r.cache.partial| == |partial| && r.cache.partial[nblock..] == partial[nblock..]
    ensures r.cache.Cached(nblock) + Concat(ks[r.used..]) == Concat(ks)[|data|..]
    ensures 0 < |data| ==> 0 < r.used && r.cache.npartial < nblock
    ensures |data| == 0 ==> r.used == 0 && r.cache.partial == partial
    ensures 0 < r.used ==> r.cache.partial[..nblock] == ks[r.used - 1]
    decreases |data|
  {
    if |data| == 0 then
      XorResult(KeystreamCache(partial, 0), [], 0)
    else
      var buf := Write(partial, 0, ks[0]);
      WriteOutside(partial, 0, ks[0], nblock);
      if nblock <= |data| then
        var rest := XorFresh(buf, nblock, data[nblock..], ks[1..]);
        WriteFront(partial, ks[0]);
        WholeBlockStep(data, ks, nblock, rest.output, rest.cache.Cached(nblock), rest.used);
        XorResult(rest.cache, XorBB(data[..nblock], ks[0]) + rest.output, rest.used + 1)
      else
        WriteFront(partial, ks[0]);
        LastBlockStep(data, ks, nblock, buf);
        XorResult(KeystreamCache(buf, nblock - |data|), XorBB(data, ks[0][..|data|]), 1)
  }

  /** cf_blockwise_xor: `output` is `input` XORed with the cached keystream
      and then with fresh blocks, in order, none skipped; whatever of the
      last block generated is not used stays cached. A block is generated
      only once the cache is exhausted and input remains. */
  function Xor(c: KeystreamCache, nblock: nat, input: seq<byte>, ks: seq<seq<byte>>): (r: XorResult)
    requires c.Valid(nblock) && Uniform(ks, nblock)
    requires |input| <= |c.Available(nblock, ks)|
    ensures r.output == XorBB(input, c.Available(nblock, ks)[..|input|])
    ensures r.used <= |ks|
    ensures r.cache.Valid(nblock)
    ensures |r.cache.partial| == |c.partial| && r.cache.partial[nblock..] == c.partial[nblock..]
    ensures r.cache.Available(nblock, ks[r.used..]) == c.Available(nblock, ks)[|input|..]
    ensures |input| == 0 ==> r == XorResult(c, [], 0)
    ensures r.used == 0 <==> |input| <= c.npartial
    ensures 0 < |input| ==> r.cache.npartial < nblock
    ensures r.used == 0 ==> r.cache.partial == c.partial
    ensures 0 < r.used ==> r.cache.partial[..nblock] == ks[r.used - 1]
  {
    if |input| <= c.npartial then FromCache(c, nblock, input, ks) else Refill(c, nblock, input, ks)
  }

  /** The cached keystream is enough: no block is generated and the bytes
      used are dropped from the front of the cache. */
  function FromCache(c: KeystreamCache, nblock: nat, input: seq<byte>, ks: seq<seq<byte>>): (r: XorResult)
    requires c.Valid(nblock) && |input| <= c.npartial
    ensures r.output == XorBB(input, c.Available(nblock, ks)[..|input|])
    ensures r.used == 0 && r.cache.partial == c.partial && r.cache.Valid(nblock)
    ensures r.cache.Available(nblock, ks[r.used..]) == c.Available(nblock, ks)[|input|..]
    ensures 0 < |input| ==> r.cache.npartial < nblock
    ensures |input| == 0 ==> r == XorResult(c, [], 0)
  {
    CacheOnly(c.partial, nblock, c.npartial, |input|, Concat(ks));
    XorResult(KeystreamCache(c.partial, c.npartial - |input|), XorBB(input, c.Cached(nblock)[..|input|]), 0)
  }

  /** The input outruns the cache: the whole cache is used, then fresh
      blocks, and the tail of the last one is cached. */
  function Refill(c: KeystreamCache, nblock: nat, input: seq<byte>, ks: seq<seq<byte>>): (r: XorResult)
    requires c.Valid(nblock) && Uniform(ks, nblock)
    requires c.npartial < |input| <= |c.Available(nblock, ks)|
    ensures r.output == XorBB(input, c.Available(nblock, ks)[..|input|])
    ensures 0 < r.used <= |ks|
    ensures r.cache.Valid(nblock) && r.cache.npartial < nblock
    ensures |r.cache.partial| == |c.partial| && r.cache.partial[nblock..] == c.partial[nblock..]
    ensures r.cache.Available(nblock, ks[r.used..]) == c.Available(nblock, ks)[|input|..]
    ensures r.cache.partial[..nblock] == ks[r.used - 1]
  {
    var head := XorBB(input[..c.npartial], c.Cached(nblock));
    var f := XorFresh(c.partial, nblock, input[c.npartial..], ks);
    CacheThenFresh(c.Cached(nblock), Concat(ks), input, head, f.output, f.cache.Cached(nblock) + Concat(ks[f.used..]));
    XorResult(f.cache, head + f.output, f.used)
  }

  /** Taking `take` bytes from the front of the cache leaves the rest of it
      cached at the end of the block. */
  lemma CacheOnly(partial: seq<byte>, n: nat, np: nat, take: nat, k: seq<byte>)
    requires np <= n <= |partial| && take <= np
    ensures partial[n - (np - take)..n] + k == (partial[n - np..n] + k)[take..]
    ensures (partial[n - np..n] + k)[..take] == partial[n - np..n][..take]
  {
  }

  /** The whole cache and then fresh keystream. */
  lemma CacheThenFresh(cached: seq<byte>, k: seq<byte>, input: seq<byte>, head: seq<byte>, out: seq<byte>, after: seq<byte>)
    requires |cached| < |input| <= |cached| + |k|
    requires head == XorBB(input[..|cached|], cached)
    requires out == XorBB(input[|cached|..], k[..|input| - |cached|])
    requires after == k[|input| - |cached|..]
    ensures head + out == XorBB(input, (cached + k)[..|input|])
    ensures after == (cached + k)[|input|..]
  {
  }

  /** One whole block of keystream followed by the rest of the stream. */
  lemma WholeBlockStep(data: seq<byte>, ks: seq<seq<byte>>, n: nat, out: seq<byte>, tail: seq<byte>, used: nat)
    requires 0 < n <= |data| && 0 < |ks| && Uniform(ks, n)
    requires |data| <= |Concat(ks)|
    requires out == XorBB(data[n..], Concat(ks[1..])[..|data| - n])
    requires used <= |ks| - 1
    requires tail + Concat(ks[1..][used..]) == Concat(ks[1..])[|data| - n..]
    ensures XorBB(data[..n], ks[0]) + out == XorBB(data, Concat(ks)[..|data|])
    ensures tail + Concat(ks[used + 1..]) == Concat(ks)[|data|..]
  {
    var k := Concat(ks);
    assert k == ks[0] + Concat(ks[1..]);
    assert ks[1..][used..] == ks[used + 1..];
    assert data == data[..n] + data[n..];
    assert k[..|data|] == ks[0] + Concat(ks[1..])[..|data| - n];
    XorBBAppend(data[..n], data[n..], ks[0], Concat(ks[1..])[..|data| - n]);
  }

  /** A remainder shorter than a block uses the front of one fresh block and
      leaves its tail cached. */
  lemma LastBlockStep(data: seq<byte>, ks: seq<seq<byte>>, n: nat, buf: seq<byte>)
    requires 0 < |data| < n && 0 < |ks| && Uniform(ks, n)
    requires n <= |buf| && buf[..n] == ks[0]
    ensures Concat(ks)[..|data|] == ks[0][..|data|]
    ensures buf[|data|..n] + Concat(ks[1..]) == Concat(ks)[|data|..]
  {
  }

  /** XOR distributes over joining buffers of matching lengths. */
  lemma XorBBAppend(x1: seq<byte>, x2: seq<byte>, y1: seq<byte>, y2: seq<byte>)
    requires |x1| == |y1| && |x2| == |y2|
    ensures XorBB(x1 + x2, y1 + y2) == XorBB(x1, y1) + XorBB(x2, y2)
  {
  }

  /* ------------------------------------------------------------ properties */

  /** `k` copies of `n` exceed `b` copies by at least `n` when `k > b`. */
  lemma MulGap(a: nat, b: nat, n: nat)
    requires b < a
    ensures b * n + n <= a * n
  {
    assert a * n == b * n + (a - b) * n;
    assert (a - b) * n == n + (a - b - 1) * n;
  }

  /** A keystream position is fixed by what is cached (less than a block)
      and how many fresh blocks remain. */
  lemma ResumeUnique(t1: seq<byte>, u1: nat, t2: seq<byte>, u2: nat, ks: seq<seq<byte>>, n: nat)
    requires Uniform(ks, n) && u1 <= |ks| && u2 <= |ks|
    requires |t1| < n && |t2| < n
    requires t1 + Concat(ks[u1..]) == t2 + Concat(ks[u2..])
    ensures u1 == u2 && t1 == t2
  {
    ConcatLength(ks[u1..], n);
    ConcatLength(ks[u2..], n);
    if u1 < u2 {
      MulGap(|ks| - u1, |ks| - u2, n);
    } else if u2 < u1 {
      MulGap(|ks| - u2, |ks| - u1, n);
    }
    assert t1 == (t1 + Concat(ks[u1..]))[..|t1|];
    assert t2 == (t2 + Concat(ks[u2..]))[..|t2|];
  }

  /** Output of two consecutive stretches of keystream. */
  lemma OutputsJoin(x: seq<byte>, y: seq<byte>, k: seq<byte>, o1: seq<byte>, o2: seq<byte>)
    requires |x| + |y| <= |k|
    requires o1 == XorBB(x, k[..|x|])
    requires o2 == XorBB(y, k[|x|..][..|y|])
    ensures o1 + o2 == XorBB(x + y, k[..|x + y|])
  {
  }

  /** The buffer `p` after a call on `before` that generated the first
      `used` blocks of `ks`: its first block is the last block generated,
      and nothing else changes. */
  predicate BufferAfter(before: seq<byte>, p: seq<byte>, n: nat, ks: seq<seq<byte>>, used: nat)
    requires n <= |before| && used <= |ks|
  {
    |p| == |before| && p[n..] == before[n..] &&
    (used == 0 ==> p == before) &&
    (0 < used ==> p[..n] == ks[used - 1])
  }

  /** A call leaves its buffer as `BufferAfter` describes. */
  lemma XorBuffer(c: KeystreamCache, nblock: nat, input: seq<byte>, ks: seq<seq<byte>>)
    requires c.Valid(nblock) && Uniform(ks, nblock)
    requires |input| <= |c.Available(nblock, ks)|
    ensures Xor(c, nblock, input, ks).used <= |ks|
    ensures BufferAfter(c.partial, Xor(c, nblock, input, ks).cache.partial, nblock, ks, Xor(c, nblock, input, ks).used)
  {
  }

  /** Two calls in a row leave the buffer one call generating the same
      blocks leaves. */
  lemma BufferAfterTwice(p0: seq<byte>, p1: seq<byte>, p2: seq<byte>, p: seq<byte>, n: nat, ks: seq<seq<byte>>, u1: nat, u2: nat)
    requires n <= |p0| && u1 + u2 <= |ks|
    requires BufferAfter(p0, p1, n, ks, u1)
    requires BufferAfter(p1, p2, n, ks[u1..], u2)
    requires BufferAfter(p0, p, n, ks, u1 + u2)
    ensures p2 == p
  {
  }

  /** The state after two calls on non-empty inputs is the state after one. */
  lemma StateJoin(k: seq<byte>, x: seq<byte>, y: seq<byte>, ks: seq<seq<byte>>, n: nat,
                  t2: seq<byte>, u1: nat, u2: nat, t: seq<byte>, u: nat)
    requires |x| + |y| <= |k| && Uniform(ks, n)
    requires u1 + u2 <= |ks| && u <= |ks|
    requires |t2| < n && |t| < n
    requires t2 + Concat(ks[u1..][u2..]) == k[|x|..][|y|..]
    requires t + Concat(ks[u..]) == k[|x + y|..]
    ensures u1 + u2 == u && t2 == t
  {
    assert ks[u1..][u2..] == ks[u1 + u2..];
    assert k[|x|..][|y|..] == k[|x + y|..];
    ResumeUnique(t2, u1 + u2, t, u, ks, n);
  }

  /** XORing `x` and then `y` gives the output, uses the keystream blocks
      and leaves the buffer that XORing `x + y` at once does. */
  lemma XorSplit(c: KeystreamCache, nblock: nat, x: seq<byte>, y: seq<byte>, ks: seq<seq<byte>>)
    requires c.Valid(nblock) && Uniform(ks, nblock)
    requires |x| + |y| <= |c.Available(nblock, ks)|
    ensures var r1 := Xor(c, nblock, x, ks);
            var r2 := Xor(r1.cache, nblock, y, ks[r1.used..]);
            var r := Xor(c, nblock, x + y, ks);
            r1.output + r2.output == r.output && r1.used + r2.used == r.used && r2.cache == r.cache
  {
    var r1 := Xor(c, nblock, x, ks);
    var r2 := Xor(r1.cache, nblock, y, ks[r1.used..]);
    var r := Xor(c, nblock, x + y, ks);
    if |y| == 0 {
      assert x + y == x;
    } else if |x| == 0 {
      assert x + y == y;
      assert ks[0..] == ks;
    } else {
      XorSplitNonEmpty(c, nblock, x, y, ks);
    }
  }

  /** `XorSplit` when neither part is empty. */
  lemma XorSplitNonEmpty(c: KeystreamCache, nblock: nat, x: seq<byte>, y: seq<byte>, ks: seq<seq<byte>>)
    requires c.Valid(nblock) && Uniform(ks, nblock)
    requires 0 < |x| && 0 < |y| && |x| + |y| <= |c.Available(nblock, ks)|
    ensures var r1 := Xor(c, nblock, x, ks);
            var r2 := Xor(r1.cache, nblock, y, ks[r1.used..]);
            var r := Xor(c, nblock, x + y, ks);
            r1.output + r2.output == r.output && r1.used + r2.used == r.used && r2.cache == r.cache
  {
    var r1 := Xor(c, nblock, x, ks);
    var r2 := Xor(r1.cache, nblock, y, ks[r1.used..]);
    var r := Xor(c, nblock, x + y, ks);
    XorBuffer(c, nblock, x, ks);
    XorBuffer(r1.cache, nblock, y, ks[r1.used..]);
    XorBuffer(c, nblock, x + y, ks);
    ResultsJoin(c.Available(nblock, ks), x, y, ks, nblock, c.partial, r1, r2, r);
  }

  /** The algebra of `XorSplitNonEmpty`, on the three calls' results. */
  lemma ResultsJoin(k: seq<byte>, x: seq<byte>, y: seq<byte>, ks: seq<seq<byte>>, n: nat, p0: seq<byte>,
                    r1: XorResult, r2: XorResult, r: XorResult)
    requires 0 < n <= |p0| && Uniform(ks, n) && |x| + |y| <= |k|
    requires r1.used <= |ks| && r2.used <= |ks| - r1.used && r.used <= |ks|
    requires r2.cache.Valid(n) && r.cache.Valid(n) && r2.cache.npartial < n && r.cache.npartial < n
    requires r1.output == XorBB(x, k[..|x|])
    requires r2.output == XorBB(y, k[|x|..][..|y|])
    requires r.output == XorBB(x + y, k[..|x + y|])
    requires r2.cache.Cached(n) + Concat(ks[r1.used..][r2.used..]) == k[|x|..][|y|..]
    requires r.cache.Cached(n) + Concat(ks[r.used..]) == k[|x + y|..]
    requires BufferAfter(p0, r1.cache.partial, n, ks, r1.used)
    requires BufferAfter(r1.cache.partial, r2.cache.partial, n, ks[r1.used..], r2.used)
    requires BufferAfter(p0, r.cache.partial, n, ks, r.used)
    ensures r1.output + r2.output == r.output && r1.used + r2.used == r.used && r2.cache == r.cache
  {
    OutputsJoin(x, y, k, r1.output, r2.output);
    StateJoin(k, x, y, ks, n, r2.cache.Cached(n), r1.used, r2.used, r.cache.Cached(n), r.used);
    BufferAfterTwice(p0, r1.cache.partial, r2.cache.partial, r.cache.partial, n, ks, r1.used, r2.used);
  }

  /** A sequence of `cf_blockwise_xor` calls, one per chunk, threading the
      buffer and the keystream generator through: the buffer at the end,
      the outputs joined in order, and the blocks generated in all. */
  function XorAll(c: KeystreamCache, nblock: nat, chunks: seq<seq<byte>>, ks: seq<seq<byte>>): (r: XorResult)
    requires c.Valid(nblock) && Uniform(ks, nblock)
    requires |Concat(chunks)| <= |c.Available(nblock, ks)|
    ensures r.used <= |ks| && r.cache.Valid(nblock)
    ensures |r.output| == |Concat(chunks)|
    decreases |chunks|
  {
    if |chunks| == 0 then XorResult(c, [], 0)
    else
      var r1 := Xor(c, nblock, chunks[0], ks);
      var r2 := XorAll(r1.cache, nblock, chunks[1..], ks[r1.used..]);
      XorResult(r2.cache, r1.output + r2.output, r1.used + r2.used)
  }

  /** However the input is cut into calls, the output, the keystream blocks
      generated and the buffer left behind are those of a single call. */
  lemma {:induction false} XorChunking(c: KeystreamCache, nblock: nat, chunks: seq<seq<byte>>, ks: seq<seq<byte>>)
    requires c.Valid(nblock) && Uniform(ks, nblock)
    requires |Concat(chunks)| <= |c.Available(nblock, ks)|
    ensures XorAll(c, nblock, chunks, ks) == Xor(c, nblock, Concat(chunks), ks)
    decreases |chunks|
  {
    if |chunks| > 0 {
      var r1 := Xor(c, nblock, chunks[0], ks);
      XorChunking(r1.cache, nblock, chunks[1..], ks[r1.used..]);
      XorSplit(c, nblock, chunks[0], Concat(chunks[1..]), ks);
    }
  }

  /** XORing the output again with the same cache and keystream gives the
      input back. */
  lemma XorInverse(c: KeystreamCache, nblock: nat, input: seq<byte>, ks: seq<seq<byte>>)
    requires c.Valid(nblock) && Uniform(ks, nblock)
    requires |input| <= |c.Available(nblock, ks)|
    ensures Xor(c, nblock, Xor(c, nblock, input, ks).output, ks).output == input
  {
    XorBBCancel(input, c.Available(nblock, ks)[..|input|]);
  }

  /** Encrypting a stream in one sequence of calls and decrypting it in
      another gives the plaintext back, whenever the decrypting side starts
      from a buffer caching the same keystream bytes (two freshly set-up
      instances cache nothing, whatever their buffers hold) and draws the
      same keystream blocks. From the very same buffer, both sides also end
      in the same state. */
  lemma XorRoundTrip(c1: KeystreamCache, c2: KeystreamCache, nblock: nat,
                     plain: seq<seq<byte>>, cipher: seq<seq<byte>>, ks: seq<seq<byte>>)
    requires c1.Valid(nblock) && c2.Valid(nblock) && Uniform(ks, nblock)
    requires c2.Cached(nblock) == c1.Cached(nblock)
    requires |Concat(plain)| <= |c1.Available(nblock, ks)|
    requires Concat(cipher) == XorAll(c1, nblock, plain, ks).output
    ensures XorAll(c2, nblock, cipher, ks).output == Concat(plain)
    ensures XorAll(c1, nblock, cipher, ks).cache == XorAll(c1, nblock, plain, ks).cache
    ensures XorAll(c1, nblock, cipher, ks).used == XorAll(c1, nblock, plain, ks).used
  {
    XorChunking(c1, nblock, plain, ks);
    XorChunking(c2, nblock, cipher, ks);
    XorChunking(c1, nblock, cipher, ks);
    XorBBCancel(Concat(plain), c1.Available(nblock, ks)[..|Concat(plain)|]);
    XorSameLength(c1, nblock, Concat(plain), Concat(cipher), ks);
  }

  /** How many blocks a call generates and the buffer it leaves depend only
      on how much input it is given. */
  lemma XorSameLength(c: KeystreamCache, nblock: nat, x: seq<byte>, y: seq<byte>, ks: seq<seq<byte>>)
    requires c.Valid(nblock) && Uniform(ks, nblock)
    requires |x| == |y| <= |c.Available(nblock, ks)|
    ensures Xor(c, nblock, x, ks).cache == Xor(c, nblock, y, ks).cache
    ensures Xor(c, nblock, x, ks).used == Xor(c, nblock, y, ks).used
  {
    var rx, ry := Xor(c, nblock, x, ks), Xor(c, nblock, y, ks);
    if 0 < |x| {
      XorBuffer(c, nblock, x, ks);
      XorBuffer(c, nblock, y, ks);
      SameState(c.Available(nblock, ks), |x|, ks, nblock, c.partial, rx, ry);
    }
  }

  /** The algebra of `XorSameLength`, on the two calls' results. */
  lemma SameState(k: seq<byte>, len: nat, ks: seq<seq<byte>>, n: nat, p0: seq<byte>, rx: XorResult, ry: XorResult)
    requires 0 < n <= |p0| && Uniform(ks, n) && len <= |k|
    requires rx.used <= |ks| && ry.used <= |ks|
    requires rx.cache.Valid(n) && ry.cache.Valid(n) && rx.cache.npartial < n && ry.cache.npartial < n
    requires rx.cache.Cached(n) + Concat(ks[rx.used..]) == k[len..]
    requires ry.cache.Cached(n) + Concat(ks[ry.used..]) == k[len..]
    requires BufferAfter(p0, rx.cache.partial, n, ks, rx.used)
    requires BufferAfter(p0, ry.cache.partial, n, ks, ry.used)
    ensures rx.cache == ry.cache && rx.used == ry.used
  {
    ResumeUnique(rx.cache.Cached(n), rx.used, ry.cache.Cached(n), ry.used, ks, n);
    assert rx.cache.partial == rx.cache.partial[..n] + rx.cache.partial[n..];
    assert ry.cache.partial == ry.cache.partial[..n] + ry.cache.partial[n..];
  }

  /* -------------------------------------------------------------- example */

  /** Four-byte blocks, nothing cached, six bytes of input: two blocks are
      generated, the output is the input XORed with the first block and the
      front half of the second, and the back half of the second stays
      cached. The `ConcatTwo` call at the head of the postcondition makes
      the keystream's length known there, which `Xor`'s precondition on
      the input length needs. */
  lemma SixBytes(partial: seq<byte>, input: seq<byte>, k0: seq<byte>, k1: seq<byte>)
    requires |partial| == 4 && |input| == 6 && |k0| == 4 && |k1| == 4
    ensures (ConcatTwo(k0, k1);
             var r := Xor(KeystreamCache(partial, 0), 4, input, [k0, k1]);
             r.used == 2 && r.cache.npartial == 2 && r.cache.partial == k1 &&
             r.cache.Cached(4) == k1[2..] && r.output == XorBB(input, k0 + k1[..2]))
  {
  }
}
