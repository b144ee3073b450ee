/**
 The carry-buffer resampler (`Resampler` of flowcat-core/src/codec.rs). The filter itself is any
 function from its state and one block to a new state and the samples it produces.
 */
module Resampling {
  import opened Text
  import Recorder

  const BLOCK: nat := 256

  type Kernel<!S> = (S, seq<int>) -> (S, seq<int>)

  datatype Result<+T> = Ok(value: T) | Err

  // ---------------------------------------------------------------- the whole-stream definition

  /** The filter run over the consecutive whole blocks of a stream. */
  function Run<S>(kernel: Kernel<S>, s: S, xs: seq<int>): (S, seq<int>)
    decreases |xs|
  {
    if |xs| < BLOCK then (s, [])
    else
      var (s1, out1) := kernel(s, xs[..BLOCK]);
      var (s2, out2) := Run(kernel, s1, xs[BLOCK..]);
      (s2, out1 + out2)
  }

  /** The last (length mod 256) samples. */
  function Rest(xs: seq<int>): seq<int> {
    xs[|xs| - |xs| % BLOCK..]
  }

  /** The rest is shorter than a block, ends the stream, and whole blocks stand in front of it. */
  lemma {:induction false} RestIs(xs: seq<int>)
    ensures var n := |xs| - |Rest(xs)|;
            |Rest(xs)| < BLOCK && 0 <= n && n % BLOCK == 0 && Rest(xs) == xs[n..]
  {
  }

  /** Block `k` of a stream. */
  function Block(xs: seq<int>, k: nat): seq<int>
    requires BLOCK * (k + 1) <= |xs|
  {
    xs[BLOCK * k..BLOCK * (k + 1)]
  }

  /** The states go from block to block, each block is filtered in the state the one before it left, and the
      output is what the blocks give, in order. */
  ghost predicate IsBlockwise<S(!new)>(kernel: Kernel<S>, xs: seq<int>, states: seq<S>, outs: seq<seq<int>>) {
    && |states| == |outs| + 1 && |outs| == |xs| / BLOCK
    && forall k: nat :: k < |outs| ==> TakesBlock(kernel, xs, states, outs, k)
  }

  ghost predicate TakesBlock<S(!new)>(kernel: Kernel<S>, xs: seq<int>, states: seq<S>, outs: seq<seq<int>>, k: nat)
    requires |states| == |outs| + 1 && k < |outs|
  {
    BLOCK * (k + 1) <= |xs| && kernel(states[k], Block(xs, k)) == (states[k + 1], outs[k])
  }

  lemma {:induction false} RunIsBlockwise<S(!new)>(kernel: Kernel<S>, s: S, xs: seq<int>)
    returns (states: seq<S>, outs: seq<seq<int>>)
    ensures IsBlockwise(kernel, xs, states, outs)
    ensures states[0] == s && Run(kernel, s, xs) == (states[|states| - 1], Concat(outs))
    decreases |xs|
  {
    if |xs| < BLOCK {
      states, outs := [s], [];
    } else {
      var (s1, out1) := kernel(s, xs[..BLOCK]);
      var more, rest := RunIsBlockwise(kernel, s1, xs[BLOCK..]);
      states, outs := [s] + more, [out1] + rest;
      forall k: nat | k < |outs| ensures TakesBlock(kernel, xs, states, outs, k) {
        if k == 0 {
          assert Block(xs, 0) == xs[..BLOCK];
        } else {
          TakesLater(kernel, xs, s, out1, more, rest, k - 1);
        }
      }
    }
  }

  lemma {:induction false} TakesLater<S(!new)>(kernel: Kernel<S>, xs: seq<int>, s: S, out: seq<int>, states: seq<S>,
                                               outs: seq<seq<int>>, k: nat)
    requires |xs| >= BLOCK && |states| == |outs| + 1 && k < |outs|
    requires TakesBlock(kernel, xs[BLOCK..], states, outs, k)
    ensures TakesBlock(kernel, xs, [s] + states, [out] + outs, k + 1)
  {
    SliceBehind(xs, BLOCK, BLOCK * k, BLOCK * k + BLOCK);
    assert BLOCK * (k + 1) == BLOCK * k + BLOCK && BLOCK * (k + 2) == BLOCK + (BLOCK * k + BLOCK);
    assert ([s] + states)[k + 1] == states[k] && ([s] + states)[k + 2] == states[k + 1];
  }

  lemma {:induction false} SliceBehind(xs: seq<int>, n: nat, i: nat, j: nat)
    requires n + j <= |xs| && i <= j
    ensures xs[n..][i..j] == xs[n + i..n + j]
  {
  }

  lemma {:induction false} RestSkipsBlock(xs: seq<int>)
    requires |xs| >= BLOCK
    ensures Rest(xs) == Rest(xs[BLOCK..])
  {
    assert |xs[BLOCK..]| % BLOCK == |xs| % BLOCK;
  }

  lemma {:induction false} ShortRest(xs: seq<int>)
    requires |xs| < BLOCK
    ensures Rest(xs) == xs
  {
  }

  /** Cutting off whole blocks in between changes no rest. */
  lemma {:induction false} RestConcat(xs: seq<int>, ys: seq<int>)
    ensures Rest(Rest(xs) + ys) == Rest(xs + ys)
    decreases |xs|
  {
    if |xs| < BLOCK {
      ShortRest(xs);
    } else {
      RestConcat(xs[BLOCK..], ys);
      RestSkipsBlock(xs);
      RestSkipsBlock(xs + ys);
      hide Rest;
      assert (xs + ys)[BLOCK..] == xs[BLOCK..] + ys;
    }
  }

  /** Running over two streams is running over the first, then over its rest and the second. */
  lemma {:induction false} RunConcat<S>(kernel: Kernel<S>, s: S, xs: seq<int>, ys: seq<int>)
    ensures var (s1, out1) := Run(kernel, s, xs);
            var (s2, out2) := Run(kernel, s1, Rest(xs) + ys);
            Run(kernel, s, xs + ys) == (s2, out1 + out2)
    ensures Rest(Rest(xs) + ys) == Rest(xs + ys)
    decreases |xs|
  {
    hide Rest;
    RestConcat(xs, ys);
    if |xs| < BLOCK {
      ShortRest(xs);
      var (s2, out2) := Run(kernel, s, xs + ys);
      assert [] + out2 == out2;
    } else {
      var (s1, out1) := kernel(s, xs[..BLOCK]);
      RunConcat(kernel, s1, xs[BLOCK..], ys);
      RestSkipsBlock(xs);
      assert (xs + ys)[..BLOCK] == xs[..BLOCK] && (xs + ys)[BLOCK..] == xs[BLOCK..] + ys;
      var (s3, out3) := Run(kernel, s1, xs[BLOCK..]);
      Associates(out1, out3, Run(kernel, s3, Rest(xs) + ys).1);
    }
  }

  /** The output for a list of chunks fed one after the other to a resampler in state `s` carrying `carry`. */
  function RunChunks<S>(kernel: Kernel<S>, s: S, carry: seq<int>, chunks: seq<seq<int>>): seq<int>
    decreases |chunks|
  {
    if chunks == [] then []
    else
      var (s1, out1) := Run(kernel, s, carry + chunks[0]);
      out1 + RunChunks(kernel, s1, Rest(carry + chunks[0]), chunks[1..])
  }

  function Concat(chunks: seq<seq<int>>): seq<int> {
    if chunks == [] then [] else chunks[0] + Concat(chunks[1..])
  }

  /** Every chunking of a stream gives the output of the whole stream. */
  lemma {:induction false} ChunkingIsIrrelevant<S>(kernel: Kernel<S>, s: S, carry: seq<int>, chunks: seq<seq<int>>)
    requires |carry| < BLOCK
    ensures RunChunks(kernel, s, carry, chunks) == Run(kernel, s, carry + Concat(chunks)).1
    decreases |chunks|
  {
    if chunks == [] {
      assert carry + [] == carry;
    } else {
      var fed := carry + chunks[0];
      RunConcat(kernel, s, fed, Concat(chunks[1..]));
      ChunkingIsIrrelevant(kernel, Run(kernel, s, fed).0, Rest(fed), chunks[1..]);
      Associates(carry, chunks[0], Concat(chunks[1..]));
    }
  }

  // ---------------------------------------------------------------- the resampler

  class Resampler<!S(==)> {
    const fromRate: nat
    const toRate: nat
    const kernel: Kernel<S>
    /** `None` when the rates are equal. */
    var inner: Option<S>
    var inBuf: seq<int>
    ghost const initial: Option<S>
    /** Every sample taken in, padding included, and every sample given out. */
    ghost var input: seq<int>
    ghost var output: seq<int>

    /** State, carry and output are functions of the input stream. */
    ghost predicate Valid()
      reads this
    {
      && (inner.Some? <==> fromRate != toRate)
      && (inner.Some? <==> initial.Some?)
      && (inner.None? ==> output == input && inBuf == [])
      && (inner.Some? ==> (inner.value, output) == Run(kernel, initial.value, input) && inBuf == Rest(input))
    }

    constructor (fromRate: nat, toRate: nat, kernel: Kernel<S>, start: S)
      requires fromRate > 0 && toRate > 0
      ensures Valid() && input == [] && output == []
      ensures this.fromRate == fromRate && this.toRate == toRate && this.kernel == kernel
      ensures initial == if fromRate == toRate then None else Some(start)
    {
      this.fromRate, this.toRate, this.kernel := fromRate, toRate, kernel;
      initial := if fromRate == toRate then None else Some(start);
      inner := if fromRate == toRate then None else Some(start);
      inBuf, input, output := [], [], [];
    }

    /** Takes any number of samples; a chunk at another rate is refused and changes nothing. */
    method Process(chunk: Recorder.AudioChunk) returns (r: Result<Recorder.AudioChunk>)
      requires Valid()
      modifies this
      ensures Valid()
      ensures r.Err? <==> chunk.sampleRate != fromRate
      ensures r.Err? ==> input == old(input) && output == old(output) && inner == old(inner)
      ensures r.Ok? ==> r.value.sampleRate == toRate
      ensures r.Ok? ==> input == old(input) + chunk.pcm && output == old(output) + r.value.pcm
    {
      if chunk.sampleRate != fromRate {
        return Err;
      }
      if inner.None? {
        input, output := input + chunk.pcm, output + chunk.pcm;
        return Ok(Recorder.AudioChunk(chunk.pcm, toRate));
      }
      RunConcat(kernel, initial.value, input, chunk.pcm);
      input := input + chunk.pcm;
      inBuf := inBuf + chunk.pcm;
      var out := RunBlocks();
      output := output + out;
      return Ok(Recorder.AudioChunk(out, toRate));
    }

    /** The loop of `Process`: runs the filter over the whole blocks in the buffer and drops them. */
    method RunBlocks() returns (out: seq<int>)
      requires inner.Some?
      modifies this`inner, this`inBuf
      ensures inner.Some? && (inner.value, out) == Run(kernel, old(inner.value), old(inBuf))
              && inBuf == Rest(old(inBuf))
    {
      out := [];
      var consumed := 0;
      assert inBuf[0..] == inBuf;
      assert [] + Run(kernel, inner.value, inBuf).1 == Run(kernel, inner.value, inBuf).1;
      while |inBuf| - consumed >= BLOCK
        invariant consumed <= |inBuf| && inBuf == old(inBuf) && inner.Some? && consumed % BLOCK == 0
        invariant var (s, more) := Run(kernel, inner.value, inBuf[consumed..]);
                  Run(kernel, old(inner.value), inBuf) == (s, out + more)
      {
        var (s, made) := kernel(inner.value, inBuf[consumed..consumed + BLOCK]);
        assert inBuf[consumed..][..BLOCK] == inBuf[consumed..consumed + BLOCK];
        assert inBuf[consumed..][BLOCK..] == inBuf[consumed + BLOCK..];
        Associates(out, made, Run(kernel, s, inBuf[consumed + BLOCK..]).1);
        inner := Some(s);
        out := out + made;
        consumed := consumed + BLOCK;
      }
      assert |inBuf| % BLOCK == |inBuf| - consumed;
      assert out + [] == out;
      if consumed > 0 {
        inBuf := inBuf[consumed..];
      }
    }

    /** Pads the carry with zeros to one block and runs it; a second flush in a row gives nothing. */
    method Flush() returns (tail: Recorder.AudioChunk)
      requires Valid()
      modifies this
      ensures Valid() && inBuf == [] && tail.sampleRate == toRate
      ensures output == old(output) + tail.pcm
      ensures input == if old(inBuf) == [] then old(input) else old(input) + Recorder.Zeros(BLOCK - |old(inBuf)|)
      ensures old(inBuf) == [] ==> tail.pcm == [] && inner == old(inner)
    {
      if inner.None? || inBuf == [] {
        return Recorder.AudioChunk([], toRate);
      }
      var zeros := Recorder.Zeros(BLOCK - |inBuf|);
      RunConcat(kernel, initial.value, input, zeros);
      input := input + zeros;
      var block := inBuf + zeros;
      inBuf := [];
      OneBlock(kernel, inner.value, block);
      var (s, made) := kernel(inner.value, block);
      inner := Some(s);
      output := output + made;
      return Recorder.AudioChunk(made, toRate);
    }
  }

  lemma {:induction false} OneBlock<S>(kernel: Kernel<S>, s: S, block: seq<int>)
    requires |block| == BLOCK
    ensures Run(kernel, s, block) == kernel(s, block) && Rest(block) == []
  {
    assert block[..BLOCK] == block && block[BLOCK..] == [];
    assert kernel(s, block).1 + [] == kernel(s, block).1;
  }

  /** `new`: both rates must be positive. */
  method Create<S(==)>(fromRate: nat, toRate: nat, kernel: Kernel<S>, start: S) returns (r: Result<Resampler<S>>)
    ensures r.Err? <==> fromRate == 0 || toRate == 0
    ensures r.Ok? ==> fresh(r.value) && r.value.Valid() && r.value.input == [] && r.value.output == []
    ensures r.Ok? ==> r.value.fromRate == fromRate && r.value.toRate == toRate && r.value.kernel == kernel
    ensures r.Ok? ==> r.value.initial == if fromRate == toRate then None else Some(start)
  {
    if fromRate == 0 || toRate == 0 {
      return Err;
    }
    var made := new Resampler(fromRate, toRate, kernel, start);
    return Ok(made);
  }
}
