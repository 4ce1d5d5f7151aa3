/** Sequences cut into fixed-size blocks and joined back together, and the
    copy of a run of bytes into a caller-owned buffer. These are the shared
    vocabulary of the two halves of the block-wise engine. */
module Chunking {

  /** Every block of `bs` is exactly `n` elements long. */
  predicate Uniform<T>(bs: seq<seq<T>>, n: nat)
  {
    forall i :: 0 <= i < |bs| ==> |bs[i]| == n
  }

  /** The blocks of `bs` joined in order. */
  function Concat<T>(bs: seq<seq<T>>): seq<T>
  {
    if |bs| == 0 then [] else bs[0] + Concat(bs[1..])
  }

  /** What is left of `s` once every complete `n`-element block has been
      taken from its front: shorter than one block. */
  function Leftover<T>(s: seq<T>, n: nat): (t: seq<T>)
    requires 0 < n
    ensures |t| < n && |t| <= |s|
    decreases |s|
  {
    if |s| < n then s else Leftover(s[n..], n)
  }

  /** The complete `n`-element blocks at the front of `s`, in order. */
  function Blocks<T>(s: seq<T>, n: nat): (bs: seq<seq<T>>)
    requires 0 < n
    ensures Uniform(bs, n)
    decreases |s|
  {
    if |s| < n then [] else [s[..n]] + Blocks(s[n..], n)
  }

  /** The blocks joined and followed by the leftover give the stream back. */
  lemma {:induction false} BlocksThenLeftover<T>(s: seq<T>, n: nat)
    requires 0 < n
    ensures Concat(Blocks(s, n)) + Leftover(s, n) == s
    decreases |s|
  {
    if |s| >= n {
      var rest := Blocks(s[n..], n);
      var bs := Blocks(s, n);
      assert bs == [s[..n]] + rest;
      assert bs[0] == s[..n] && bs[1..] == rest;
      BlocksThenLeftover(s[n..], n);
      assert s == s[..n] + s[n..];
    }
  }

  /** `buf` with `data` copied over it from `offset` on; nothing outside
      `[offset, offset + |data|)` changes. */
  function Write<T>(buf: seq<T>, offset: nat, data: seq<T>): (r: seq<T>)
    requires offset + |data| <= |buf|
    ensures |r| == |buf|
    ensures r[..offset] == buf[..offset]
    ensures r[offset..offset + |data|] == data
    ensures r[offset + |data|..] == buf[offset + |data|..]
  {
    buf[..offset] + data + buf[offset + |data|..]
  }

  /** A write leaves everything from `from` on alone once `from` is past
      the written range. */
  lemma WriteOutside<T>(buf: seq<T>, offset: nat, data: seq<T>, from: nat)
    requires offset + |data| <= from <= |buf|
    ensures Write(buf, offset, data)[from..] == buf[from..]
  {
  }

  /** Writing `data` at the front of a buffer puts it in front. */
  lemma WriteFront<T>(buf: seq<T>, data: seq<T>)
    requires |data| <= |buf|
    ensures Write(buf, 0, data)[..|data|] == data
  {
  }

  lemma {:induction false} ConcatAppend<T>(a: seq<seq<T>>, b: seq<seq<T>>)
    ensures Concat(a + b) == Concat(a) + Concat(b)
    decreases |a|
  {
    if |a| == 0 {
      assert a + b == b;
    } else {
      assert (a + b)[1..] == a[1..] + b;
      ConcatAppend(a[1..], b);
    }
  }

  /** Joining a list of two blocks. */
  lemma ConcatTwo<T>(u: seq<T>, v: seq<T>)
    ensures Concat([u, v]) == u + v
  {
    assert [u, v][1..] == [v];
    assert [v][1..] == [];
    assert Concat([v]) == v + Concat([v][1..]) == v;
  }

  /** Joining a list of three blocks. */
  lemma ConcatThree<T>(u: seq<T>, v: seq<T>, w: seq<T>)
    ensures Concat([u, v, w]) == u + v + w
  {
    assert [u, v, w][1..] == [v, w];
    ConcatTwo(v, w);
  }

  lemma {:induction false} ConcatLength<T>(bs: seq<seq<T>>, n: nat)
    requires Uniform(bs, n)
    ensures |Concat(bs)| == |bs| * n
    decreases |bs|
  {
    if |bs| > 0 {
      ConcatLength(bs[1..], n);
    }
  }

  /** A stream cut into whole `n`-element blocks plus a remainder shorter
      than a block can be cut that way in only one way. */
  lemma {:induction false} SplitUnique<T>(bs: seq<seq<T>>, p: seq<T>, cs: seq<seq<T>>, q: seq<T>, n: nat)
    requires 0 < n && Uniform(bs, n) && Uniform(cs, n)
    requires |p| < n && |q| < n
    requires Concat(bs) + p == Concat(cs) + q
    ensures bs == cs && p == q
    decreases |bs|
  {
    if |bs| == 0 && |cs| == 0 {
      assert Concat(bs) == [] == Concat(cs);
      assert p == Concat(bs) + p;
      assert q == Concat(cs) + q;
    } else if |bs| == 0 || |cs| == 0 {
      assert false;
    } else {
      var s := Concat(bs) + p;
      assert s == bs[0] + (Concat(bs[1..]) + p);
      assert s == cs[0] + (Concat(cs[1..]) + q);
      assert bs[0] == s[..n] == cs[0];
      assert Concat(bs[1..]) + p == s[n..] == Concat(cs[1..]) + q;
      SplitUnique(bs[1..], p, cs[1..], q, n);
      assert bs == [bs[0]] + bs[1..];
      assert cs == [cs[0]] + cs[1..];
    }
  }

  /** Two block lists of the same shape that join to the same stream are the
      same list. */
  lemma {:induction false} ConcatShapeUnique<T>(bs: seq<seq<T>>, cs: seq<seq<T>>)
    requires |bs| == |cs|
    requires forall i :: 0 <= i < |bs| ==> |bs[i]| == |cs[i]|
    requires Concat(bs) == Concat(cs)
    ensures bs == cs
    decreases |bs|
  {
    if |bs| > 0 {
      var s := Concat(bs);
      assert bs[0] == s[..|bs[0]|] == cs[0];
      assert Concat(bs[1..]) == s[|bs[0]|..] == Concat(cs[1..]);
      ConcatShapeUnique(bs[1..], cs[1..]);
      assert bs == [bs[0]] + bs[1..];
      assert cs == [cs[0]] + cs[1..];
    }
  }
}
