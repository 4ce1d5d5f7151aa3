/** The accumulating half of the block-wise engine (cf_blockwise_accumulate
    and cf_blockwise_accumulate_final). Input of any length is collected in
    the caller's `partial` buffer, front-filled, and handed on one complete
    `nblock`-byte block at a time.

    A call first tops up a non-empty pending block, then hands on whole
    blocks straight from the input, then buffers what remains. The
    processing functions are not run: a call returns the blocks it would
    hand them, in order, each tagged with the function that receives it. */
module Blockwise {
  import opened BitOps
  import opened Chunking

  /** Which of the caller's processing functions a block goes to. */
  datatype Callback = Process | ProcessFinal

  /** One invocation of a processing function and the block it is passed. */
  datatype Call = Call(callback: Callback, block: seq<byte>)

  /** The caller-owned buffer `partial` and the number of valid bytes at its
      front. */
  datatype Accumulator = Accumulator(partial: seq<byte>, npartial: nat) {

    /** The buffer holds at least one block, and strictly less than one
        block is pending: a complete block is never left buffered. */
    predicate Valid(nblock: nat)
    {
      0 < nblock <= |partial| && npartial < nblock
    }

    /** The input bytes buffered so far. */
    function Pending(): seq<byte>
      requires npartial <= |partial|
    {
      partial[..npartial]
    }
  }

  /** The buffer after a call and the processing calls it made, in order. */
  datatype Step = Step(acc: Accumulator, calls: seq<Call>)

  /** The blocks passed by `calls`, in order. */
  function Contents(calls: seq<Call>): (bs: seq<seq<byte>>)
    ensures |bs| == |calls|
    ensures forall i :: 0 <= i < |calls| ==> bs[i] == calls[i].block
  {
    seq(|calls|, i requires 0 <= i < |calls| => calls[i].block)
  }

  /** `blocks` handed to `Process`, except the last, which goes to `last`. */
  function Tag(blocks: seq<seq<byte>>, last: Callback): (calls: seq<Call>)
    ensures Contents(calls) == blocks
    ensures forall i :: 0 <= i < |calls| ==> calls[i].callback == (if i == |calls| - 1 then last else Process)
  {
    seq(|blocks|, i requires 0 <= i < |blocks| => Call(if i == |blocks| - 1 then last else Process, blocks[i]))
  }

  /** The engine shared by both entry points: the block that ends exactly at
      the end of `input` goes to `last`, every other block to `Process`.
      `cf_blockwise_accumulate` is this with `Process` in both roles. */
  function AccumulateWith(a: Accumulator, nblock: nat, input: seq<byte>, last: Callback): (r: Step)
    requires a.Valid(nblock)
    ensures r.acc.Valid(nblock)
    ensures |r.acc.partial| == |a.partial| && r.acc.partial[nblock..] == a.partial[nblock..]
    ensures Uniform(Contents(r.calls), nblock)
    ensures Concat(Contents(r.calls)) + r.acc.Pending() == a.Pending() + input
    ensures forall i :: 0 <= i < |r.calls| ==>
              r.calls[i].callback == (if i == |r.calls| - 1 && r.acc.npartial == 0 then last else Process)
    ensures |input| == 0 ==> r == Step(a, [])
  {
    if 0 < a.npartial && a.npartial + |input| < nblock then
      // the input only lengthens the pending block
      Step(Accumulator(Write(a.partial, a.npartial, input), a.npartial + |input|), [])
    else
      // top up a pending block, then hand on whole blocks and buffer the rest
      var take := if 0 < a.npartial then nblock - a.npartial else 0;
      var topped := Write(a.partial, a.npartial, input[..take]);
      var first := if 0 < a.npartial then [topped[..nblock]] else [];
      var rest := input[take..];
      var d := Drain(topped, nblock, rest);
      TopUpBlock(a, nblock, input[..take], topped, first);
      WriteOutside(a.partial, a.npartial, input[..take], nblock);
      Conserves(first, d.1, d.0.Pending(), a.Pending(), input, take);
      Step(d.0, Tag(first + d.1, if d.0.npartial == 0 then last else Process))
  }

  /** With nothing pending in `buf`: the whole blocks at the front of `rest`,
      straight from the input, and the buffer holding what remains of it. */
  function Drain(buf: seq<byte>, nblock: nat, rest: seq<byte>): (r: (Accumulator, seq<seq<byte>>))
    requires 0 < nblock <= |buf|
    ensures r.0.Valid(nblock)
    ensures |r.0.partial| == |buf| && r.0.partial[nblock..] == buf[nblock..]
    ensures Uniform(r.1, nblock)
    ensures Concat(r.1) + r.0.Pending() == rest
  {
    var tail := Leftover(rest, nblock);
    BlocksThenLeftover(rest, nblock);
    WriteFront(buf, tail);
    WriteOutside(buf, 0, tail, nblock);
    (Accumulator(Write(buf, 0, tail), |tail|), Blocks(rest, nblock))
  }

  /** Bytes are conserved across one call: the first block holds the
      pending bytes and the `head` of the input, the whole blocks and the
      new pending `tail` hold the `rest`. */
  lemma Conserves(first: seq<seq<byte>>, bs: seq<seq<byte>>, tail: seq<byte>,
                  pending: seq<byte>, input: seq<byte>, take: nat)
    requires take <= |input|
    requires Concat(first) == pending + input[..take]
    requires Concat(bs) + tail == input[take..]
    ensures Concat(first + bs) + tail == pending + input
  {
    ConcatAppend(first, bs);
    assert input == input[..take] + input[take..];
  }

  /** The first block of a call is the pending bytes followed by the bytes
      copied in to complete them, if anything was pending. */
  lemma TopUpBlock(a: Accumulator, nblock: nat, head: seq<byte>, topped: seq<byte>, first: seq<seq<byte>>)
    requires a.Valid(nblock)
    requires 0 < a.npartial ==> a.npartial + |head| == nblock
    requires a.npartial == 0 ==> head == []
    requires topped == Write(a.partial, a.npartial, head)
    requires first == if 0 < a.npartial then [topped[..nblock]] else []
    ensures Concat(first) == a.Pending() + head
  {
  }

  /** cf_blockwise_accumulate: every block goes to `Process`. */
  function Accumulate(a: Accumulator, nblock: nat, input: seq<byte>): (r: Step)
    requires a.Valid(nblock)
    ensures r.acc.Valid(nblock)
    ensures |r.acc.partial| == |a.partial| && r.acc.partial[nblock..] == a.partial[nblock..]
    ensures Uniform(Contents(r.calls), nblock)
    ensures Concat(Contents(r.calls)) + r.acc.Pending() == a.Pending() + input
    ensures forall i :: 0 <= i < |r.calls| ==> r.calls[i].callback == Process
    ensures |input| == 0 ==> r == Step(a, [])
  {
    AccumulateWith(a, nblock, input, Process)
  }

  /** cf_blockwise_accumulate_final: as `Accumulate`, except that a block
      ending exactly at the end of the input goes to `ProcessFinal`. So
      `ProcessFinal` is called at most once, only as the last call, and not
      at all when the call leaves input buffered. */
  function AccumulateFinal(a: Accumulator, nblock: nat, input: seq<byte>): (r: Step)
    requires a.Valid(nblock)
    ensures r.acc.Valid(nblock)
    ensures |r.acc.partial| == |a.partial| && r.acc.partial[nblock..] == a.partial[nblock..]
    ensures Uniform(Contents(r.calls), nblock)
    ensures Concat(Contents(r.calls)) + r.acc.Pending() == a.Pending() + input
    ensures forall i :: 0 <= i < |r.calls| ==>
              (r.calls[i].callback == ProcessFinal <==> i == |r.calls| - 1 && r.acc.npartial == 0)
    ensures |input| == 0 ==> r == Step(a, [])
  {
    AccumulateWith(a, nblock, input, ProcessFinal)
  }

  /* ------------------------------------------------------------ properties */

  /** The two entry points buffer the same bytes and hand on the same blocks;
      they differ only in which function receives the last one. */
  lemma AccumulateFinalAgrees(a: Accumulator, nblock: nat, input: seq<byte>)
    requires a.Valid(nblock)
    ensures AccumulateFinal(a, nblock, input).acc == Accumulate(a, nblock, input).acc
    ensures Contents(AccumulateFinal(a, nblock, input).calls) == Contents(Accumulate(a, nblock, input).calls)
  {
  }

  /** Calls are equal when they pass the same blocks to the same functions. */
  lemma CallsEqual(c1: seq<Call>, c2: seq<Call>)
    requires Contents(c1) == Contents(c2)
    requires forall i :: 0 <= i < |c1| ==> c1[i].callback == c2[i].callback
    ensures c1 == c2
  {
  }

  /** The blocks of consecutive calls are the blocks of the first followed by
      those of the second. */
  lemma ContentsAppend(c1: seq<Call>, c2: seq<Call>)
    ensures Contents(c1 + c2) == Contents(c1) + Contents(c2)
  {
  }

  /** Feeding `x` and then `y` makes the same processing calls, in the same
      order, as feeding `x + y` at once, and leaves the same bytes pending. */
  lemma {:induction false} AccumulateSplit(a: Accumulator, nblock: nat, x: seq<byte>, y: seq<byte>)
    requires a.Valid(nblock)
    ensures var r1 := Accumulate(a, nblock, x);
            var r2 := Accumulate(r1.acc, nblock, y);
            var r := Accumulate(a, nblock, x + y);
            r1.calls + r2.calls == r.calls &&
            r2.acc.npartial == r.acc.npartial && r2.acc.Pending() == r.acc.Pending()
  {
    var r1 := Accumulate(a, nblock, x);
    var r2 := Accumulate(r1.acc, nblock, y);
    var r := Accumulate(a, nblock, x + y);
    ContentsAppend(r1.calls, r2.calls);
    SplitTwice(Contents(r1.calls), r1.acc.Pending(), Contents(r2.calls), r2.acc.Pending(),
               Contents(r.calls), r.acc.Pending(), a.Pending(), x, y, nblock);
    CallsEqual(r1.calls + r2.calls, r.calls);
  }

  /** Two conserving steps in a row conserve bytes. */
  lemma Rejoin<T>(c1: seq<T>, p1: seq<T>, c2: seq<T>, p2: seq<T>, pending: seq<T>, x: seq<T>, y: seq<T>)
    requires c1 + p1 == pending + x
    requires c2 + p2 == p1 + y
    ensures (c1 + c2) + p2 == pending + (x + y)
  {
    assert (c1 + c2) + p2 == c1 + (c2 + p2);
    assert pending + (x + y) == (pending + x) + y;
  }

  /** The block-list algebra behind `AccumulateSplit`: two steps that each
      conserve bytes cut the joined input the only way it can be cut. */
  lemma SplitTwice(b1: seq<seq<byte>>, p1: seq<byte>, b2: seq<seq<byte>>, p2: seq<byte>,
                   b: seq<seq<byte>>, p: seq<byte>, pending: seq<byte>, x: seq<byte>, y: seq<byte>, n: nat)
    requires 0 < n && Uniform(b1, n) && Uniform(b2, n) && Uniform(b, n)
    requires |p2| < n && |p| < n
    requires Concat(b1) + p1 == pending + x
    requires Concat(b2) + p2 == p1 + y
    requires Concat(b) + p == pending + (x + y)
    ensures b1 + b2 == b && p2 == p
  {
    ConcatAppend(b1, b2);
    Rejoin(Concat(b1), p1, Concat(b2), p2, pending, x, y);
    SplitUnique(b1 + b2, p2, b, p, n);
  }

  /** A sequence of `cf_blockwise_accumulate` calls, one per chunk, threading
      the buffer through: the buffer at the end and every processing call,
      in order. */
  function AccumulateAll(a: Accumulator, nblock: nat, chunks: seq<seq<byte>>): (r: Step)
    requires a.Valid(nblock)
    ensures r.acc.Valid(nblock)
    ensures |r.acc.partial| == |a.partial| && r.acc.partial[nblock..] == a.partial[nblock..]
    decreases |chunks|
  {
    if |chunks| == 0 then Step(a, [])
    else
      var r1 := Accumulate(a, nblock, chunks[0]);
      var r2 := AccumulateAll(r1.acc, nblock, chunks[1..]);
      Step(r2.acc, r1.calls + r2.calls)
  }

  /** However the input is cut into chunks, the processing functions see the
      same blocks in the same order and the same bytes stay pending. */
  lemma {:induction false} AccumulateChunking(a: Accumulator, nblock: nat, chunks: seq<seq<byte>>)
    requires a.Valid(nblock)
    ensures AccumulateAll(a, nblock, chunks).calls == Accumulate(a, nblock, Concat(chunks)).calls
    ensures AccumulateAll(a, nblock, chunks).acc.npartial == Accumulate(a, nblock, Concat(chunks)).acc.npartial
    ensures AccumulateAll(a, nblock, chunks).acc.Pending() == Accumulate(a, nblock, Concat(chunks)).acc.Pending()
    decreases |chunks|
  {
    if |chunks| > 0 {
      var r1 := Accumulate(a, nblock, chunks[0]);
      AccumulateChunking(r1.acc, nblock, chunks[1..]);
      AccumulateSplit(a, nblock, chunks[0], Concat(chunks[1..]));
    }
  }

  /** A plain call followed by one `cf_blockwise_accumulate_final` call on
      non-empty input makes the calls a single final call on all of it makes:
      the earlier call never reaches `ProcessFinal`. */
  lemma {:induction false} AccumulateThenFinal(a: Accumulator, nblock: nat, x: seq<byte>, y: seq<byte>)
    requires a.Valid(nblock) && |y| > 0
    ensures var r1 := Accumulate(a, nblock, x);
            var f2 := AccumulateFinal(r1.acc, nblock, y);
            var f := AccumulateFinal(a, nblock, x + y);
            r1.calls + f2.calls == f.calls &&
            f2.acc.npartial == f.acc.npartial && f2.acc.Pending() == f.acc.Pending()
  {
    var r1 := Accumulate(a, nblock, x);
    var f2 := AccumulateFinal(r1.acc, nblock, y);
    var f := AccumulateFinal(a, nblock, x + y);
    AccumulateSplit(a, nblock, x, y);
    AccumulateFinalAgrees(r1.acc, nblock, y);
    AccumulateFinalAgrees(a, nblock, x + y);
    var r2 := Accumulate(r1.acc, nblock, y);
    ContentsAppend(r1.calls, f2.calls);
    ContentsAppend(r1.calls, r2.calls);
    if |f2.calls| == 0 {
      assert Concat(Contents(f2.calls)) == [];
      assert f2.acc.Pending() == r1.acc.Pending() + y;
    }
    forall i | 0 <= i < |f.calls|
      ensures (r1.calls + f2.calls)[i].callback == f.calls[i].callback
    {
      if i >= |r1.calls| {
        assert (r1.calls + f2.calls)[i] == f2.calls[i - |r1.calls|];
      }
    }
    CallsEqual(r1.calls + f2.calls, f.calls);
  }

  /** A final call's processing calls depend only on the bytes pending
      before it, not on the stale bytes further along the buffer. */
  lemma FinalSamePending(a1: Accumulator, a2: Accumulator, nblock: nat, input: seq<byte>)
    requires a1.Valid(nblock) && a2.Valid(nblock) && a1.Pending() == a2.Pending()
    ensures var f1 := AccumulateFinal(a1, nblock, input);
            var f2 := AccumulateFinal(a2, nblock, input);
            f1.calls == f2.calls &&
            f1.acc.npartial == f2.acc.npartial && f1.acc.Pending() == f2.acc.Pending()
  {
    var f1 := AccumulateFinal(a1, nblock, input);
    var f2 := AccumulateFinal(a2, nblock, input);
    SplitUnique(Contents(f1.calls), f1.acc.Pending(), Contents(f2.calls), f2.acc.Pending(), nblock);
    CallsEqual(f1.calls, f2.calls);
  }

  /** Any run of plain calls followed by one `cf_blockwise_accumulate_final`
      call on non-empty input makes the calls a single final call on all of
      it makes. */
  lemma ChunksThenFinal(a: Accumulator, nblock: nat, chunks: seq<seq<byte>>, y: seq<byte>)
    requires a.Valid(nblock) && |y| > 0
    ensures var r1 := AccumulateAll(a, nblock, chunks);
            var f2 := AccumulateFinal(r1.acc, nblock, y);
            var f := AccumulateFinal(a, nblock, Concat(chunks) + y);
            r1.calls + f2.calls == f.calls &&
            f2.acc.npartial == f.acc.npartial && f2.acc.Pending() == f.acc.Pending()
  {
    var r1 := AccumulateAll(a, nblock, chunks);
    var s := Accumulate(a, nblock, Concat(chunks));
    AccumulateChunking(a, nblock, chunks);
    FinalSamePending(r1.acc, s.acc, nblock, y);
    AccumulateThenFinal(a, nblock, Concat(chunks), y);
  }

  /* -------------------------------------------------------------- examples */

  /** Twelve bytes into an empty buffer of four-byte blocks: three blocks,
      the last to `ProcessFinal`, and nothing left pending. */
  lemma FinalTwelveBytes(partial: seq<byte>, input: seq<byte>)
    requires |partial| == 4 && |input| == 12
    ensures var r := AccumulateFinal(Accumulator(partial, 0), 4, input);
            r.acc.npartial == 0 &&
            r.calls == [Call(Process, input[..4]), Call(Process, input[4..8]), Call(ProcessFinal, input[8..])]
  {
    var r := AccumulateFinal(Accumulator(partial, 0), 4, input);
    ConcatLength(Contents(r.calls), 4);
    var want := [Call(Process, input[..4]), Call(Process, input[4..8]), Call(ProcessFinal, input[8..])];
    assert Concat(Contents(want)) == input by {
      assert Contents(want) == [input[..4], input[4..8], input[8..]];
      ConcatThree(input[..4], input[4..8], input[8..]);
      assert input == input[..4] + input[4..8] + input[8..];
    }
    assert r.acc.Pending() == [];
    assert Concat(Contents(r.calls)) + [] == Concat(Contents(r.calls));
    ConcatShapeUnique(Contents(r.calls), Contents(want));
    CallsEqual(r.calls, want);
  }

  /** Eleven bytes: two blocks to `Process`, and the last three bytes stay
      pending, since a final call only finalises a block that ends the
      input. */
  lemma FinalElevenBytes(partial: seq<byte>, input: seq<byte>)
    requires |partial| == 4 && |input| == 11
    ensures var r := AccumulateFinal(Accumulator(partial, 0), 4, input);
            r.acc.npartial == 3 && r.acc.Pending() == input[8..] &&
            r.calls == [Call(Process, input[..4]), Call(Process, input[4..8])]
  {
    var r := AccumulateFinal(Accumulator(partial, 0), 4, input);
    ConcatLength(Contents(r.calls), 4);
    var want := [Call(Process, input[..4]), Call(Process, input[4..8])];
    assert Concat(Contents(want)) + input[8..] == input by {
      assert Contents(want) == [input[..4], input[4..8]];
      ConcatTwo(input[..4], input[4..8]);
      assert input == input[..4] + input[4..8] + input[8..];
    }
    SplitUnique(Contents(r.calls), r.acc.Pending(), Contents(want), input[8..], 4);
    CallsEqual(r.calls, want);
  }

  /** Two bytes pending and six more arriving: the pending block is topped up
      with two input bytes and handed on, then the last four input bytes go
      to `ProcessFinal` straight from the input. */
  lemma FinalTopUp(partial: seq<byte>, input: seq<byte>)
    requires |partial| == 4 && |input| == 6
    ensures var a := Accumulator(partial, 2);
            var r := AccumulateFinal(a, 4, input);
            r.acc.npartial == 0 &&
            r.calls == [Call(Process, partial[..2] + input[..2]), Call(ProcessFinal, input[2..])]
  {
    var a := Accumulator(partial, 2);
    var r := AccumulateFinal(a, 4, input);
    ConcatLength(Contents(r.calls), 4);
    var want := [Call(Process, partial[..2] + input[..2]), Call(ProcessFinal, input[2..])];
    assert Concat(Contents(want)) == a.Pending() + input by {
      assert Contents(want) == [partial[..2] + input[..2], input[2..]];
      ConcatTwo(partial[..2] + input[..2], input[2..]);
      assert input == input[..2] + input[2..];
    }
    assert r.acc.Pending() == [];
    ConcatShapeUnique(Contents(r.calls), Contents(want));
    CallsEqual(r.calls, want);
  }
}
