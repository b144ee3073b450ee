/**
 The processor around the voice-activity machine (`VadProcessor` of
 flowcat-core/src/audio/vad.rs): it cuts the sample stream into windows, emits an edge for each
 change of the verdict, and reports barge-in while the bot speaks.
 */
module VadProcessor {
  import opened Text
  import opened Vad

  type Window = seq<int>

  // ---------------------------------------------------------------- windows

  function Join(windows: seq<Window>): seq<int> {
    if windows == [] then [] else windows[0] + Join(windows[1..])
  }

  /** `samples` cut into windows of `size` from the front; `rest` is too short for another. */
  ghost predicate Windowed(samples: seq<int>, windows: seq<Window>, rest: seq<int>, size: nat) {
    && Join(windows) + rest == samples
    && (forall i :: 0 <= i < |windows| ==> |windows[i]| == size)
    && |rest| < size
  }

  /** The first window is the front of the stream, and there is one exactly when the stream is long enough. */
  lemma {:induction false} FirstWindow(samples: seq<int>, windows: seq<Window>, rest: seq<int>, size: nat)
    requires Windowed(samples, windows, rest, size)
    ensures windows == [] <==> |samples| < size
    ensures windows == [] ==> rest == samples
    ensures windows != [] ==> |samples| >= size && windows[0] == samples[..size]
                              && Windowed(samples[size..], windows[1..], rest, size)
  {
    if windows == [] {
      assert [] + rest == rest;
    } else {
      Associates(windows[0], Join(windows[1..]), rest);
      assert samples == windows[0] + (Join(windows[1..]) + rest);
    }
  }

  /** There is only one way to cut a sample stream. */
  lemma {:induction false} WindowsAreUnique(samples: seq<int>, a: seq<Window>, ra: seq<int>, b: seq<Window>,
                                            rb: seq<int>, size: nat)
    requires Windowed(samples, a, ra, size) && Windowed(samples, b, rb, size)
    ensures a == b && ra == rb
    decreases |a|
  {
    hide Windowed;
    FirstWindow(samples, a, ra, size);
    FirstWindow(samples, b, rb, size);
    if a != [] {
      WindowsAreUnique(samples[size..], a[1..], ra, b[1..], rb, size);
      assert a == [a[0]] + a[1..] && b == [b[0]] + b[1..];
    }
  }

  lemma {:induction false} JoinAppend(windows: seq<Window>, w: Window)
    ensures Join(windows + [w]) == Join(windows) + w
  {
    if windows == [] {
      assert [w][1..] == [];
    } else {
      JoinAppend(windows[1..], w);
      assert (windows + [w])[1..] == windows[1..] + [w];
    }
  }

  // ---------------------------------------------------------------- verdicts and edges

  /** A model's confidence and volume for the latest window; it may remember all earlier ones. */
  type Model = seq<Window> -> (real, real)

  predicate Gate(model: Model, params: VadParams, windows: seq<Window>) {
    model(windows).0 >= params.confidence && model(windows).1 >= params.minVolume
  }

  /** The gated history of a window stream. */
  function Gated(model: Model, params: VadParams, windows: seq<Window>): (h: seq<bool>)
    ensures |h| == |windows|
  {
    if windows == [] then []
    else Gated(model, params, windows[..|windows| - 1]) + [Gate(model, params, windows)]
  }

  datatype Edge = Started | Stopped

  /** The changes of the verdict along a history, oldest first. */
  ghost function Edges(h: seq<bool>, start: nat, stop: nat): seq<Edge> {
    if h == [] then [] else Edges(h[..|h| - 1], start, stop) + NewEdge(h, start, stop)
  }

  /** The change, if any, that the last window of `h` brings. */
  ghost function NewEdge(h: seq<bool>, start: nat, stop: nat): seq<Edge>
    requires h != []
  {
    var before, now := Voiced(h[..|h| - 1], start, stop), Voiced(h, start, stop);
    if now && !before then [Started] else if before && !now then [Stopped] else []
  }

  /** Edges strictly alternate, beginning with a start; the last one says what the verdict is. */
  lemma {:induction false} EdgesAlternate(h: seq<bool>, start: nat, stop: nat)
    requires start > 0
    ensures var e := Edges(h, start, stop);
            && (forall i :: 0 <= i < |e| ==> e[i] == if i % 2 == 0 then Started else Stopped)
            && (Voiced(h, start, stop) <==> |e| % 2 == 1)
  {
    if h == [] {
      NotVoicedAtStart(start, stop);
    } else {
      EdgesAlternate(h[..|h| - 1], start, stop);
    }
  }

  // ---------------------------------------------------------------- the processor

  datatype Frame = BotStartedSpeaking | BotStoppedSpeaking | InputAudio(pcm: seq<int>) | OtherFrame

  datatype Out =
    | VadUserStartedSpeaking
    | UserStartedSpeaking
    | VadUserStoppedSpeaking
    | UserStoppedSpeaking
    | Interruption
    | Forwarded(frame: Frame)

  /** The frames pushed for an edge; `barge` adds the broadcast interruption. */
  function FramesOf(e: Edge, barge: bool): seq<Out> {
    match e
    case Started => [VadUserStartedSpeaking, UserStartedSpeaking] + if barge then [Interruption] else []
    case Stopped => [VadUserStoppedSpeaking, UserStoppedSpeaking]
  }

  function FramesOfAll(es: seq<Edge>, barge: bool): seq<Out> {
    if es == [] then [] else FramesOfAll(es[..|es| - 1], barge) + FramesOf(es[|es| - 1], barge)
  }

  function Starts(es: seq<Edge>): nat {
    if es == [] then 0 else Starts(es[..|es| - 1]) + if es[|es| - 1].Started? then 1 else 0
  }

  /** The user-edge frames of an output stream. */
  function EdgeFrames(outs: seq<Out>): seq<Out> {
    if outs == [] then []
    else
      var last := outs[|outs| - 1];
      EdgeFrames(outs[..|outs| - 1]) + if last.Interruption? || last.Forwarded? then [] else [last]
  }

  function Interruptions(outs: seq<Out>): nat {
    if outs == [] then 0 else Interruptions(outs[..|outs| - 1]) + if outs[|outs| - 1].Interruption? then 1 else 0
  }

  lemma {:induction false} EdgeFramesConcat(a: seq<Out>, b: seq<Out>)
    ensures EdgeFrames(a + b) == EdgeFrames(a) + EdgeFrames(b)
    ensures Interruptions(a + b) == Interruptions(a) + Interruptions(b)
  {
    if b == [] {
      assert a + b == a;
    } else {
      EdgeFramesConcat(a, b[..|b| - 1]);
      assert (a + b)[..|a + b| - 1] == a + b[..|b| - 1];
    }
  }

  lemma {:induction false} FramesConcat(a: seq<Edge>, b: seq<Edge>, barge: bool)
    ensures FramesOfAll(a + b, barge) == FramesOfAll(a, barge) + FramesOfAll(b, barge)
    ensures Starts(a + b) == Starts(a) + Starts(b)
  {
    hide FramesOf;
    if b == [] {
      assert a + b == a;
    } else {
      var init, last := b[..|b| - 1], b[|b| - 1];
      FramesConcat(a, init, barge);
      assert (a + b)[..|a + b| - 1] == a + init;
      var x, y, z := FramesOfAll(a, barge), FramesOfAll(init, barge), FramesOf(last, barge);
      assert x + y + z == x + (y + z);
    }
  }

  lemma {:induction false} EdgeFramesOfEdge(e: Edge, barge: bool)
    ensures EdgeFrames(FramesOf(e, barge)) == FramesOf(e, false)
    ensures Interruptions(FramesOf(e, barge)) == if barge && e.Started? then 1 else 0
  {
    var f := FramesOf(e, false);
    assert f == [f[0], f[1]];
    TwoFrames(f[0], f[1]);
    if barge && e.Started? {
      assert FramesOf(e, barge) == f + [Interruption];
      hide FramesOf;
      OneFrame(Interruption);
      EdgeFramesConcat(f, [Interruption]);
    }
  }

  lemma {:induction false} OneFrame(o: Out)
    ensures EdgeFrames([o]) == if o.Interruption? || o.Forwarded? then [] else [o]
    ensures Interruptions([o]) == if o.Interruption? then 1 else 0
  {
    assert [o][..0] == [];
  }

  lemma {:induction false} TwoFrames(a: Out, b: Out)
    requires !a.Interruption? && !a.Forwarded? && !b.Interruption? && !b.Forwarded?
    ensures EdgeFrames([a, b]) == [a, b] && Interruptions([a, b]) == 0
  {
    OneFrame(a);
    OneFrame(b);
    EdgeFramesConcat([a], [b]);
    assert [a] + [b] == [a, b];
  }

  /** Of the frames pushed for some edges, barge-in adds only interruptions, one for each start. */
  lemma {:induction false} BargeAddsInterruptions(es: seq<Edge>, barge: bool)
    ensures EdgeFrames(FramesOfAll(es, barge)) == FramesOfAll(es, false)
    ensures Interruptions(FramesOfAll(es, barge)) == if barge then Starts(es) else 0
  {
    if es != [] {
      var init, last := es[..|es| - 1], es[|es| - 1];
      BargeAddsInterruptions(init, barge);
      EdgeFramesOfEdge(last, barge);
      EdgeFramesConcat(FramesOfAll(init, barge), FramesOf(last, barge));
    }
  }

  /** The frame of each kind for the `i`th edge of a run, starts at even places. */
  function PairAt(i: nat): (Out, Out) {
    if i % 2 == 0 then (VadUserStartedSpeaking, UserStartedSpeaking)
    else (VadUserStoppedSpeaking, UserStoppedSpeaking)
  }

  /** The frames of any history come in pairs, two for a start and two for a stop, by turns. */
  lemma {:induction false} FramesComeInPairs(h: seq<bool>, start: nat, stop: nat)
    requires start > 0
    ensures var e := Edges(h, start, stop);
            var f := FramesOfAll(e, false);
            |f| == 2 * |e| && forall i :: 0 <= i < |e| ==> (f[2 * i], f[2 * i + 1]) == PairAt(i)
  {
    EdgesAlternate(h, start, stop);
    PairsOf(Edges(h, start, stop));
  }

  lemma {:induction false} PairsOf(es: seq<Edge>)
    requires forall i :: 0 <= i < |es| ==> es[i] == if i % 2 == 0 then Started else Stopped
    ensures var f := FramesOfAll(es, false);
            |f| == 2 * |es| && forall i :: 0 <= i < |es| ==> (f[2 * i], f[2 * i + 1]) == PairAt(i)
  {
    if es != [] {
      var init := es[..|es| - 1];
      PairsOf(init);
    }
  }

  class VadProcessor {
    const machine: VadStateMachine
    const model: Model
    const windowSamples: nat
    const interruptOnBargeIn: bool
    var buffer: seq<int>
    /** The model's memory: every window it has analysed. */
    var windows: seq<Window>
    var lastState: VadState
    var botSpeaking: bool
    var interruptFlag: nat
    /** Every sample received and every frame pushed since creation. */
    ghost var samples: seq<int>
    ghost var outs: seq<Out>

    ghost predicate Windowing()
      reads `windows, `lastState, machine
    {
      && windowSamples > 0
      && (forall i :: 0 <= i < |windows| ==> |windows[i]| == windowSamples)
      && machine.Valid()
      && machine.history == Gated(model, machine.params, windows)
      && lastState == machine.state
    }

    /** The edge frames pushed so far are those of the sample stream, however it was framed. */
    ghost predicate Valid()
      reads this, machine
    {
      && Windowing()
      && Windowed(samples, windows, buffer, windowSamples)
      && (var start, stop := machine.startFrames as nat, machine.stopFrames as nat;
          EdgeFrames(outs) == FramesOfAll(Edges(machine.history, start, stop), false))
      && Interruptions(outs) == interruptFlag
      && (!interruptOnBargeIn ==> interruptFlag == 0)
    }

    constructor (machine: VadStateMachine, model: Model, windowSamples: nat, interruptOnBargeIn: bool)
      requires machine.Valid() && machine.history == []
      ensures Valid() && samples == [] && outs == [] && !botSpeaking
      ensures this.machine == machine && this.model == model && this.interruptOnBargeIn == interruptOnBargeIn
      ensures this.windowSamples == if windowSamples < 1 then 1 else windowSamples
    {
      this.machine, this.model, this.interruptOnBargeIn := machine, model, interruptOnBargeIn;
      this.windowSamples := if windowSamples < 1 then 1 else windowSamples;
      buffer, windows, lastState, botSpeaking, interruptFlag := [], [], Quiet, false, 0;
      samples, outs := [], [];
      NotVoicedAtStart(machine.startFrames as nat, machine.stopFrames as nat);
    }

    /** Analyses one window and pushes what its edge calls for. */
    method AnalyzeWindow(window: Window) returns (out: seq<Out>)
      requires Windowing() && |window| == windowSamples
      modifies this`windows, this`lastState, this`interruptFlag, machine`state, machine`startingCount,
               machine`stoppingCount, machine`history
      ensures Windowing() && windows == old(windows) + [window]
      ensures |machine.history| > 0 && machine.history[..|machine.history| - 1] == old(machine.history)
      ensures var e := NewEdge(machine.history, machine.startFrames as nat, machine.stopFrames as nat);
              var barge := botSpeaking && interruptOnBargeIn;
              out == FramesOfAll(e, barge) && interruptFlag == old(interruptFlag) + if barge then Starts(e) else 0
      ensures var start, stop := machine.startFrames as nat, machine.stopFrames as nat;
              var before, now := Voiced(old(machine.history), start, stop), Voiced(machine.history, start, stop);
              var barge := botSpeaking && interruptOnBargeIn;
              && out == (if now && !before then
                           [VadUserStartedSpeaking, UserStartedSpeaking] + if barge then [Interruption] else []
                         else if before && !now then [VadUserStoppedSpeaking, UserStoppedSpeaking] else [])
              && interruptFlag == old(interruptFlag) + if now && !before && barge then 1 else 0
    {
      hide StateOf, Voiced, AllLast, Run, Edges, EdgeFrames, Interruptions;
      ghost var h := machine.history;
      windows := windows + [window];
      assert windows[..|windows| - 1] == old(windows);
      var score := model(windows);
      var newState := machine.Advance(score.0, score.1);
      assert machine.history[..|machine.history| - 1] == h;
      EdgeOfStates(machine.history, machine.startFrames as nat, machine.stopFrames as nat, lastState, newState);
      var wasSpeaking := lastState.Speaking? || lastState.Stopping?;
      var isSpeaking := newState.Speaking?;
      out := [];
      if isSpeaking && !wasSpeaking {
        out := [VadUserStartedSpeaking, UserStartedSpeaking];
        if botSpeaking && interruptOnBargeIn {
          interruptFlag := interruptFlag + 1;
          out := out + [Interruption];
        }
        OneEdge(Started, botSpeaking && interruptOnBargeIn);
      } else if wasSpeaking && newState.Quiet? {
        out := [VadUserStoppedSpeaking, UserStoppedSpeaking];
        OneEdge(Stopped, botSpeaking && interruptOnBargeIn);
      }
      lastState := newState;
    }

    /** One turn of the loop in `DrainWindows`: takes the first window off the buffer and analyses it. */
    method TakeWindow() returns (out: seq<Out>, ghost e: seq<Edge>)
      requires Windowing() && |buffer| >= windowSamples
      modifies this`buffer, this`windows, this`lastState, this`interruptFlag, machine`state,
               machine`startingCount, machine`stoppingCount, machine`history
      ensures Windowing() && Join(windows) + buffer == Join(old(windows)) + old(buffer) && |buffer| < |old(buffer)|
      ensures var start, stop := machine.startFrames as nat, machine.stopFrames as nat;
              Edges(machine.history, start, stop) == Edges(old(machine.history), start, stop) + e
      ensures var barge := botSpeaking && interruptOnBargeIn;
              out == FramesOfAll(e, barge) && interruptFlag == old(interruptFlag) + if barge then Starts(e) else 0
    {
      assert windowSamples > 0;
      hide *;
      var window := buffer[..windowSamples];
      JoinAppend(windows, window);
      Associates(Join(windows), window, buffer[windowSamples..]);
      assert window + buffer[windowSamples..] == buffer;
      buffer := buffer[windowSamples..];
      out := AnalyzeWindow(window);
      EdgesNext(machine.history, machine.startFrames as nat, machine.stopFrames as nat);
      e := NewEdge(machine.history, machine.startFrames as nat, machine.stopFrames as nat);
    }

    /** Analyses every complete window in the buffer; `es` are the edges they bring. */
    method DrainWindows() returns (out: seq<Out>, ghost es: seq<Edge>)
      requires Windowing()
      modifies this`buffer, this`windows, this`lastState, this`interruptFlag, machine`state,
               machine`startingCount, machine`stoppingCount, machine`history
      ensures Windowing() && Join(windows) + buffer == Join(old(windows)) + old(buffer) && |buffer| < windowSamples
      ensures var start, stop := machine.startFrames as nat, machine.stopFrames as nat;
              Edges(machine.history, start, stop) == Edges(old(machine.history), start, stop) + es
      ensures var barge := botSpeaking && interruptOnBargeIn;
              out == FramesOfAll(es, barge) && interruptFlag == old(interruptFlag) + if barge then Starts(es) else 0
    {
      out, es := [], [];
      assert FramesOfAll(es, botSpeaking && interruptOnBargeIn) == [] && Starts(es) == 0 && windowSamples > 0;
      hide *;
      ghost var start, stop := machine.startFrames as nat, machine.stopFrames as nat;
      ghost var barge := botSpeaking && interruptOnBargeIn;
      ghost var h, flag := machine.history, interruptFlag;
      while |buffer| >= windowSamples
        invariant Windowing()
        invariant Join(windows) + buffer == Join(old(windows)) + old(buffer)
        invariant Edges(machine.history, start, stop) == Edges(h, start, stop) + es
        invariant out == FramesOfAll(es, barge) && interruptFlag == flag + if barge then Starts(es) else 0
        decreases |buffer|
      {
        var pushed;
        ghost var e;
        pushed, e := TakeWindow();
        FramesConcat(es, e, barge);
        Associates(Edges(h, start, stop), es, e);
        out, es := out + pushed, es + e;
      }
    }

    /** Updates the bot flag or drains the windows, and always forwards the frame, last. */
    method ProcessFrame(frame: Frame) returns (out: seq<Out>)
      requires Valid()
      modifies this, machine`state, machine`startingCount, machine`stoppingCount, machine`history
      ensures Valid() && outs == old(outs) + out
      ensures samples == old(samples) + if frame.InputAudio? then frame.pcm else []
      ensures botSpeaking == if frame.BotStartedSpeaking? then true
                             else if frame.BotStoppedSpeaking? then false
                             else old(botSpeaking)
      ensures var start, stop := machine.startFrames as nat, machine.stopFrames as nat;
              interruptFlag == old(interruptFlag) +
              if botSpeaking && interruptOnBargeIn
              then Starts(Edges(machine.history, start, stop)) - Starts(Edges(old(machine.history), start, stop)) else 0
      ensures out != [] && out[|out| - 1] == Forwarded(frame)
      ensures !frame.InputAudio? ==> out == [Forwarded(frame)]
    {
      hide StateOf, Edges, EdgeFrames, FramesOfAll, Gated, Join, Interruptions, Starts;
      out := [];
      assert outs + [] == outs;
      match frame {
        case BotStartedSpeaking => botSpeaking := true;
        case BotStoppedSpeaking => botSpeaking := false;
        case InputAudio(pcm) =>
          Associates(Join(windows), buffer, pcm);
          buffer := buffer + pcm;
          samples := samples + pcm;
          ghost var es;
          out, es := DrainWindows();
          ghost var start, stop := machine.startFrames as nat, machine.stopFrames as nat;
          PushedEdges(outs, Edges(old(machine.history), start, stop), es, out, botSpeaking && interruptOnBargeIn);
        case OtherFrame =>
      }
      ForwardingAddsNothing(outs, out, frame);
      out := out + [Forwarded(frame)];
      outs := outs + out;
    }
  }

  /**
   The edge frames of a processor are a function of its sample stream: two processors over equal
   models, thresholds and samples have pushed the same, in whatever frames the samples came and
   whatever the bot did meanwhile.
   */
  lemma {:induction false} FramingIsIrrelevant(p: VadProcessor, q: VadProcessor)
    requires p.Valid() && q.Valid() && p.samples == q.samples
    requires p.model == q.model && p.windowSamples == q.windowSamples && p.machine.params == q.machine.params
    requires p.machine.startFrames == q.machine.startFrames && p.machine.stopFrames == q.machine.stopFrames
    ensures EdgeFrames(p.outs) == EdgeFrames(q.outs)
    ensures p.buffer == q.buffer && p.lastState == q.lastState
  {
    hide StateOf, Edges, EdgeFrames, FramesOfAll, Gated, Join;
    WindowsAreUnique(p.samples, p.windows, p.buffer, q.windows, q.buffer, p.windowSamples);
  }

  lemma {:induction false} EdgesNext(h: seq<bool>, start: nat, stop: nat)
    requires h != []
    ensures Edges(h, start, stop) == Edges(h[..|h| - 1], start, stop) + NewEdge(h, start, stop)
  {
  }

  /** Appending the frames of new edges to the output appends the edges, and one interruption per start. */
  lemma {:induction false} PushedEdges(outs: seq<Out>, before: seq<Edge>, es: seq<Edge>, pushed: seq<Out>, barge: bool)
    requires EdgeFrames(outs) == FramesOfAll(before, false) && pushed == FramesOfAll(es, barge)
    ensures EdgeFrames(outs + pushed) == FramesOfAll(before + es, false)
    ensures Interruptions(outs + pushed) == Interruptions(outs) + if barge then Starts(es) else 0
    ensures Starts(before + es) == Starts(before) + Starts(es)
  {
    hide *;
    EdgeFramesConcat(outs, pushed);
    BargeAddsInterruptions(es, barge);
    FramesConcat(before, es, false);
  }

  lemma {:induction false} ForwardingAddsNothing(outs: seq<Out>, pushed: seq<Out>, frame: Frame)
    ensures EdgeFrames(outs + (pushed + [Forwarded(frame)])) == EdgeFrames(outs + pushed)
    ensures Interruptions(outs + (pushed + [Forwarded(frame)])) == Interruptions(outs + pushed)
  {
    var longer := outs + (pushed + [Forwarded(frame)]);
    assert longer[..|longer| - 1] == outs + pushed;
  }

  lemma {:induction false} OneEdge(e: Edge, barge: bool)
    ensures FramesOfAll([e], barge) == FramesOf(e, barge)
    ensures Starts([e]) == if e.Started? then 1 else 0
  {
    assert [e][..0] == [];
  }

  /** The processor's test on two successive states finds the edge of the verdict. */
  lemma {:induction false} EdgeOfStates(h: seq<bool>, start: nat, stop: nat, last: VadState, now: VadState)
    requires start > 0 && stop > 0 && h != []
    requires last == StateOf(h[..|h| - 1], start, stop) && now == StateOf(h, start, stop)
    ensures var was := last.Speaking? || last.Stopping?;
            NewEdge(h, start, stop) ==
            if now.Speaking? && !was then [Started] else if was && now.Quiet? then [Stopped] else []
  {
    var init := h[..|h| - 1];
    assert h == init + [h[|h| - 1]];
    VoicedNext(init, h[|h| - 1], start, stop);
  }
}
