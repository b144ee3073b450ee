/**
 The two-leg call recorder (flowcat-core/src/audio/mod.rs), over real-valued seconds and chunks
 that are already at the recorder's rate.
 */
module Recorder {

  datatype AudioChunk = AudioChunk(pcm: seq<int>, sampleRate: nat)

  /** A chunk and its place on the call's timeline, in seconds from call start. */
  datatype PlacedChunk = PlacedChunk(offset: real, chunk: AudioChunk)

  function Max(a: real, b: real): real {
    if a >= b then a else b
  }

  /** `f64::round` and the cast to `usize`, which takes negative values to zero. */
  function Round(x: real): nat {
    if x < 0.0 then 0 else (x + 0.5).Floor
  }

  /** The nearest whole number, halves up; everything below zero goes to zero. */
  lemma {:induction false} RoundIsNearest(x: real)
    ensures x >= 0.0 ==> x - 0.5 < Round(x) as real <= x + 0.5
    ensures x < 0.0 ==> Round(x) == 0
  {
  }

  /** The sample position of a time. */
  function SampleAt(seconds: real, rate: nat): nat {
    Round(seconds * rate as real)
  }

  function DurationOf(chunk: AudioChunk): (d: real)
    ensures d >= 0.0
  {
    if chunk.sampleRate == 0 then 0.0 else |chunk.pcm| as real / chunk.sampleRate as real
  }

  // ---------------------------------------------------------------- the timeline of a leg

  function EndOf(p: PlacedChunk): real {
    p.offset + DurationOf(p.chunk)
  }

  function LegEnd(leg: seq<PlacedChunk>): real {
    if leg == [] then 0.0 else EndOf(leg[|leg| - 1])
  }

  /** No chunk is empty, and none begins before the one in front of it has ended. */
  ghost predicate InOrder(leg: seq<PlacedChunk>) {
    forall i: nat :: i < |leg| ==> leg[i].chunk.pcm != [] && leg[i].offset >= LegEnd(leg[..i])
  }

  lemma {:induction false} LegEndNotNegative(leg: seq<PlacedChunk>)
    requires InOrder(leg)
    ensures LegEnd(leg) >= 0.0
  {
    if leg != [] {
      InOrderInit(leg);
      LegEndNotNegative(leg[..|leg| - 1]);
    }
  }

  lemma {:induction false} InOrderInit(leg: seq<PlacedChunk>)
    requires InOrder(leg) && leg != []
    ensures InOrder(leg[..|leg| - 1]) && leg[|leg| - 1].offset >= LegEnd(leg[..|leg| - 1])
  {
    var init := leg[..|leg| - 1];
    forall i: nat | i < |init| ensures init[i].chunk.pcm != [] && init[i].offset >= LegEnd(init[..i]) {
      assert init[..i] == leg[..i];
    }
  }

  lemma {:induction false} InOrderAppend(leg: seq<PlacedChunk>, p: PlacedChunk)
    requires InOrder(leg) && p.chunk.pcm != [] && p.offset >= LegEnd(leg)
    ensures InOrder(leg + [p])
  {
    var longer := leg + [p];
    forall i: nat | i < |longer| ensures longer[i].chunk.pcm != [] && longer[i].offset >= LegEnd(longer[..i]) {
      assert longer[..i] == leg[..i];
      assert leg[..|leg|] == leg;
    }
  }

  // ---------------------------------------------------------------- rendering a leg

  function Zeros(n: nat): seq<int> {
    seq(n, _ => 0)
  }

  /** Silence up to position `n`, if the output is not already there. */
  function PadTo(out: seq<int>, n: nat): seq<int> {
    if |out| < n then out + Zeros(n - |out|) else out
  }

  /** The sample position a chunk is meant to start at. */
  function Slot(p: PlacedChunk, rate: nat): nat {
    SampleAt(p.offset, rate)
  }

  /** A chunk's slot is at most half a sample away from its time. */
  lemma {:induction false} SlotIsNearest(p: PlacedChunk, rate: nat)
    requires p.offset >= 0.0
    ensures var exact := p.offset * rate as real; exact - 0.5 < Slot(p, rate) as real <= exact + 0.5
  {
    assert p.offset * rate as real >= 0.0;
    RoundIsNearest(p.offset * rate as real);
  }

  /** A leg laid out chunk by chunk. */
  function Rendered(leg: seq<PlacedChunk>, rate: nat): seq<int> {
    if leg == [] then []
    else
      var last := leg[|leg| - 1];
      PadTo(Rendered(leg[..|leg| - 1], rate), Slot(last, rate)) + last.chunk.pcm
  }

  ghost predicate AtRate(leg: seq<PlacedChunk>, rate: nat) {
    forall i :: 0 <= i < |leg| ==> leg[i].chunk.sampleRate == rate
  }

  lemma {:induction false} RoundAddsWhole(x: real, n: nat)
    requires x >= 0.0
    ensures Round(x + n as real) == Round(x) + n
  {
  }

  lemma {:induction false} SampleAtMonotone(x: real, y: real, rate: nat)
    requires 0.0 <= x <= y
    ensures SampleAt(x, rate) <= SampleAt(y, rate)
  {
    var r := rate as real;
    assert 0.0 <= x * r;
    assert (y - x) * r >= 0.0;
    assert y * r == x * r + (y - x) * r;
  }

  /** A chunk at the output rate ends, in samples, exactly its length after its slot. */
  lemma {:induction false} EndInSamples(p: PlacedChunk, rate: nat)
    requires rate > 0 && p.chunk.sampleRate == rate && p.offset >= 0.0
    ensures SampleAt(EndOf(p), rate) == Slot(p, rate) + |p.chunk.pcm|
  {
    var r, n := rate as real, |p.chunk.pcm| as real;
    assert (p.offset + n / r) * r == p.offset * r + n;
    assert p.offset * r >= 0.0;
    RoundAddsWhole(p.offset * r, |p.chunk.pcm|);
  }

  /** The last chunk of a leg begins, in samples, no earlier than the rest ends. */
  lemma {:induction false} LastAfterRest(leg: seq<PlacedChunk>, rate: nat)
    requires rate > 0 && InOrder(leg) && AtRate(leg, rate) && leg != []
    ensures SampleAt(LegEnd(leg[..|leg| - 1]), rate) <= Slot(leg[|leg| - 1], rate)
    ensures SampleAt(LegEnd(leg), rate) == Slot(leg[|leg| - 1], rate) + |leg[|leg| - 1].chunk.pcm|
  {
    hide SampleAt;
    var init, last := leg[..|leg| - 1], leg[|leg| - 1];
    InOrderInit(leg);
    LegEndNotNegative(init);
    SampleAtMonotone(LegEnd(init), last.offset, rate);
    EndInSamples(last, rate);
  }

  lemma {:induction false} StartIsZero(rate: nat)
    ensures SampleAt(0.0, rate) == 0
  {
    assert 0.0 * rate as real == 0.0;
  }

  /** The length of a rendered leg is its end time, in samples: chunks never drift. */
  lemma {:induction false} RenderedLength(leg: seq<PlacedChunk>, rate: nat)
    requires rate > 0 && InOrder(leg) && AtRate(leg, rate)
    ensures |Rendered(leg, rate)| == SampleAt(LegEnd(leg), rate)
  {
    hide SampleAt;
    if leg == [] {
      StartIsZero(rate);
    } else {
      InOrderInit(leg);
      RenderedLength(leg[..|leg| - 1], rate);
      LastAfterRest(leg, rate);
    }
  }

  /** The slots of a leg do not overlap. */
  lemma {:induction false} SlotsApart(leg: seq<PlacedChunk>, rate: nat, i: nat, j: nat)
    requires rate > 0 && InOrder(leg) && AtRate(leg, rate) && i < j < |leg|
    ensures Slot(leg[i], rate) + |leg[i].chunk.pcm| <= Slot(leg[j], rate)
    decreases |leg|, j
  {
    hide SampleAt;
    var init := leg[..|leg| - 1];
    InOrderInit(leg);
    if j < |leg| - 1 {
      SlotsApart(init, rate, i, j);
    } else {
      LastAfterRest(leg, rate);
      LastAfterRest(init, rate);
      if i < j - 1 {
        SlotsApart(init, rate, i, j - 1);
      }
    }
  }

  /** Position `k` belongs to the chunk `p`. */
  predicate Covers(p: PlacedChunk, rate: nat, k: nat) {
    Slot(p, rate) <= k < Slot(p, rate) + |p.chunk.pcm|
  }

  /** A rendered leg is the rest, silence up to the last slot, and the last chunk. */
  lemma {:induction false} RenderedLast(leg: seq<PlacedChunk>, rate: nat)
    requires rate > 0 && InOrder(leg) && AtRate(leg, rate) && leg != []
    ensures var init, last := leg[..|leg| - 1], leg[|leg| - 1];
            && |Rendered(init, rate)| <= Slot(last, rate)
            && Rendered(leg, rate) == Rendered(init, rate)
                 + Zeros(Slot(last, rate) - |Rendered(init, rate)|) + last.chunk.pcm
  {
    hide SampleAt;
    InOrderInit(leg);
    RenderedLength(leg[..|leg| - 1], rate);
    LastAfterRest(leg, rate);
  }

  /** A chunk's samples stand exactly from its slot on, whatever was pushed before or after it. */
  lemma {:induction false} ChunkStandsAtSlot(leg: seq<PlacedChunk>, rate: nat, i: nat)
    requires rate > 0 && InOrder(leg) && AtRate(leg, rate) && i < |leg|
    ensures var from, pcm := Slot(leg[i], rate), leg[i].chunk.pcm;
            from + |pcm| <= |Rendered(leg, rate)| && Rendered(leg, rate)[from..from + |pcm|] == pcm
  {
    hide Slot, Rendered, InOrder;
    RenderedLast(leg, rate);
    var init := leg[..|leg| - 1];
    if i < |init| {
      InOrderInit(leg);
      ChunkStandsAtSlot(init, rate, i);
      assert init[i] == leg[i];
    }
  }

  /** Every position that no chunk covers is silent. */
  lemma {:induction false} GapsAreSilent(leg: seq<PlacedChunk>, rate: nat, k: nat)
    requires rate > 0 && InOrder(leg) && AtRate(leg, rate) && k < |Rendered(leg, rate)|
    requires forall i :: 0 <= i < |leg| ==> !Covers(leg[i], rate, k)
    ensures Rendered(leg, rate)[k] == 0
  {
    if leg != [] {
      RenderedLast(leg, rate);
      InOrderInit(leg);
      hide SampleAt, InOrder;
      var init, last := leg[..|leg| - 1], leg[|leg| - 1];
      assert !Covers(last, rate, k);
      if k < |Rendered(init, rate)| {
        forall i | 0 <= i < |init| ensures !Covers(init[i], rate, k) { assert init[i] == leg[i]; }
        GapsAreSilent(init, rate, k);
      }
    }
  }

  /**
   The length law, exactly: it holds at every rate but zero, where nothing is ever padded and any
   chunk at all breaks it.
   */
  lemma {:induction false} LengthLawHoldsIff(leg: seq<PlacedChunk>, rate: nat)
    requires InOrder(leg) && AtRate(leg, rate)
    ensures |Rendered(leg, rate)| == SampleAt(LegEnd(leg), rate) <==> rate > 0 || leg == []
  {
    if rate > 0 {
      RenderedLength(leg, rate);
    } else if leg != [] {
      assert leg[|leg| - 1].chunk.pcm != [];
      assert LegEnd(leg) * 0 as real == 0.0;
    } else {
      StartIsZero(rate);
    }
  }

  // ---------------------------------------------------------------- mixing

  function Clamp(x: int): int {
    if x > 32767 then 32767 else if x < -32768 then -32768 else x
  }

  /** The sample nearest to `x`; a sample itself stays. */
  lemma {:induction false} ClampIsNearest(x: int, y: int)
    requires -32768 <= y <= 32767
    ensures -32768 <= Clamp(x) <= 32767
    ensures -32768 <= x <= 32767 ==> Clamp(x) == x
    ensures (if Clamp(x) <= x then x - Clamp(x) else Clamp(x) - x) <= if y <= x then x - y else y - x
  {
  }

  /** The sample at `i`, or silence after the end. */
  function At(leg: seq<int>, i: nat): int {
    if i < |leg| then leg[i] else 0
  }

  function Longer(a: nat, b: nat): nat {
    if a >= b then a else b
  }

  class AudioRecorder {
    const sampleRate: nat
    var inbound: seq<PlacedChunk>
    var outbound: seq<PlacedChunk>
    var inboundEnd: real
    var outboundEnd: real

    ghost predicate Valid()
      reads this
    {
      && InOrder(inbound) && inboundEnd == LegEnd(inbound)
      && InOrder(outbound) && outboundEnd == LegEnd(outbound)
    }

    constructor (sampleRate: nat)
      ensures Valid() && inbound == [] && outbound == [] && this.sampleRate == sampleRate
    {
      this.sampleRate := sampleRate;
      inbound, outbound, inboundEnd, outboundEnd := [], [], 0.0, 0.0;
    }

    /** An empty chunk is dropped; any other goes to its arrival time or the end of the leg, the later. */
    method PushInboundAt(offset: real, chunk: AudioChunk)
      requires Valid() && offset >= 0.0
      modifies this`inbound, this`inboundEnd
      ensures Valid()
      ensures inbound == old(inbound) +
                if chunk.pcm == [] then [] else [PlacedChunk(Max(offset, LegEnd(old(inbound))), chunk)]
      ensures chunk.pcm != [] ==>
                var at := inbound[|inbound| - 1].offset;
                at >= offset && at >= LegEnd(old(inbound)) && (at == offset || at == LegEnd(old(inbound)))
    {
      if chunk.pcm != [] {
        var p := PlacedChunk(Max(offset, inboundEnd), chunk);
        InOrderAppend(inbound, p);
        inboundEnd := p.offset + DurationOf(chunk);
        inbound := inbound + [p];
      }
    }

    method PushOutboundAt(offset: real, chunk: AudioChunk)
      requires Valid() && offset >= 0.0
      modifies this`outbound, this`outboundEnd
      ensures Valid()
      ensures outbound == old(outbound) +
                if chunk.pcm == [] then [] else [PlacedChunk(Max(offset, LegEnd(old(outbound))), chunk)]
      ensures chunk.pcm != [] ==>
                var at := outbound[|outbound| - 1].offset;
                at >= offset && at >= LegEnd(old(outbound)) && (at == offset || at == LegEnd(old(outbound)))
    {
      if chunk.pcm != [] {
        var p := PlacedChunk(Max(offset, outboundEnd), chunk);
        InOrderAppend(outbound, p);
        outboundEnd := p.offset + DurationOf(chunk);
        outbound := outbound + [p];
      }
    }

    function DurationSeconds(): real
      reads this
    {
      Max(inboundEnd, outboundEnd)
    }

    /** The samples of the recording: the clamped sum of both legs, as long as the call lasted. */
    method RenderMix() returns (mixed: seq<int>)
      requires Valid() && AtRate(inbound, sampleRate) && AtRate(outbound, sampleRate)
      ensures var caller, bot := Rendered(inbound, sampleRate), Rendered(outbound, sampleRate);
              && |mixed| == (if |caller| >= |bot| then |caller| else |bot|)
              && forall i: nat :: i < |mixed| ==>
                   mixed[i] == Clamp((if i < |caller| then caller[i] else 0) + (if i < |bot| then bot[i] else 0))
      ensures sampleRate > 0 ==> |mixed| == SampleAt(DurationSeconds(), sampleRate)
    {
      hide SampleAt, InOrder, Rendered, Clamp;
      var caller := RenderLeg(inbound, sampleRate);
      var bot := RenderLeg(outbound, sampleRate);
      var n := Longer(|caller|, |bot|);
      mixed := [];
      for i := 0 to n
        invariant |mixed| == i
        invariant forall j: nat :: j < i ==> mixed[j] == Clamp(At(caller, j) + At(bot, j))
      {
        mixed := mixed + [Clamp(At(caller, i) + At(bot, i))];
      }
      if sampleRate > 0 {
        MixLength(inbound, outbound, sampleRate);
      }
    }
  }

  lemma {:induction false} MixLength(inbound: seq<PlacedChunk>, outbound: seq<PlacedChunk>, rate: nat)
    requires rate > 0 && InOrder(inbound) && InOrder(outbound) && AtRate(inbound, rate) && AtRate(outbound, rate)
    ensures Longer(|Rendered(inbound, rate)|, |Rendered(outbound, rate)|)
            == SampleAt(Max(LegEnd(inbound), LegEnd(outbound)), rate)
  {
    hide SampleAt;
    RenderedLength(inbound, rate);
    RenderedLength(outbound, rate);
    LegEndNotNegative(inbound);
    LegEndNotNegative(outbound);
    var a, b := LegEnd(inbound), LegEnd(outbound);
    if a >= b {
      SampleAtMonotone(b, a, rate);
    } else {
      SampleAtMonotone(a, b, rate);
    }
  }

  /** Lays a leg out: pad to the chunk's slot, copy the chunk. */
  method RenderLeg(leg: seq<PlacedChunk>, rate: nat) returns (out: seq<int>)
    requires AtRate(leg, rate)
    ensures out == Rendered(leg, rate)
  {
    hide SampleAt;
    out := [];
    for i := 0 to |leg|
      invariant out == Rendered(leg[..i], rate)
    {
      var target := SampleAt(leg[i].offset, rate);
      if |out| < target {
        out := out + Zeros(target - |out|);
      }
      out := out + leg[i].chunk.pcm;
      ghost var done := leg[..i + 1];
      assert done[..|done| - 1] == leg[..i] && done[|done| - 1] == leg[i];
    }
    assert leg[..|leg|] == leg;
  }
}
