/**
 The voice-activity counter machine (`VadStateMachine` of flowcat-core/src/audio/vad.rs).

 `Voiced` says when the user counts as speaking by looking back over the whole history of
 speech and silence windows. The four-state counter machine is proved to compute it.
 */
module Vad {

  newtype u32 = x: int | 0 <= x < 0x1_0000_0000

  // ---------------------------------------------------------------- the look-back definition

  /** The last `n` of the first `i` windows all had the value `speech`. */
  predicate AllLast(h: seq<bool>, i: nat, n: nat, speech: bool)
    requires i <= |h|
  {
    n <= i && forall k :: i - n <= k < i ==> h[k] == speech
  }

  /**
   The user counts as speaking: at some point the last `start` windows were all speech, and at
   no later point were the last `stop` windows all silent.
   */
  ghost predicate Voiced(h: seq<bool>, start: nat, stop: nat) {
    exists i :: 0 <= i <= |h| && AllLast(h, i, start, true) && forall j :: i < j <= |h| ==> !AllLast(h, j, stop, false)
  }

  /** The length of the unbroken run of `speech` at the end of the history. */
  function Run(h: seq<bool>, speech: bool): nat {
    if h == [] || h[|h| - 1] != speech then 0 else Run(h[..|h| - 1], speech) + 1
  }

  lemma {:induction false} RunIsTrailing(h: seq<bool>, speech: bool, n: nat)
    ensures Run(h, speech) <= |h|
    ensures AllLast(h, |h|, n, speech) <==> n <= Run(h, speech)
  {
    if h != [] {
      var init := h[..|h| - 1];
      if h[|h| - 1] == speech && n > 0 {
        RunIsTrailing(init, speech, n - 1);
        assert AllLast(h, |h|, n, speech) <==> AllLast(init, |init|, n - 1, speech);
      } else if h[|h| - 1] == speech {
        RunIsTrailing(init, speech, 0);
      }
    }
  }

  /**
   How one more window changes the verdict: while voiced, only a full run of silence ends it;
   while not, only a full run of speech begins it.
   */
  lemma {:induction false} VoicedNext(h: seq<bool>, b: bool, start: nat, stop: nat)
    requires start > 0 && stop > 0
    ensures Voiced(h + [b], start, stop) <==>
            if Voiced(h, start, stop) then !AllLast(h + [b], |h| + 1, stop, false)
            else AllLast(h + [b], |h| + 1, start, true)
  {
    var g := h + [b];
    forall i: nat | i <= |h|
      ensures AllLast(g, i, start, true) <==> AllLast(h, i, start, true)
      ensures AllLast(g, i, stop, false) <==> AllLast(h, i, stop, false)
    {
      assert forall k: nat :: k < i ==> g[k] == h[k];
    }
    if Voiced(h, start, stop) {
      var i :| 0 <= i <= |h| && AllLast(h, i, start, true) && forall j :: i < j <= |h| ==> !AllLast(h, j, stop, false);
      if AllLast(g, |g|, stop, false) {
        assert !g[|g| - 1];
        assert !AllLast(g, |g|, start, true);
      } else {
        assert AllLast(g, i, start, true);
      }
    }
  }

  lemma {:induction false} NotVoicedAtStart(start: nat, stop: nat)
    requires start > 0
    ensures !Voiced([], start, stop)
  {
  }

  // ---------------------------------------------------------------- the counter machine

  datatype VadState = Quiet | Starting | Speaking | Stopping

  /** The machine's state as a function of the history. */
  ghost function StateOf(h: seq<bool>, start: nat, stop: nat): VadState {
    if Voiced(h, start, stop) then (if Run(h, false) == 0 then Speaking else Stopping)
    else (if Run(h, true) == 0 then Quiet else Starting)
  }

  /** One window moves the state and the runs as a counter machine does. */
  lemma {:induction false} StateNext(h: seq<bool>, b: bool, start: nat, stop: nat)
    requires start > 0 && stop > 0
    ensures Run(h + [b], b) == Run(h, b) + 1 && Run(h + [b], !b) == 0
    ensures StateOf(h, start, stop).Quiet? ==> Run(h, true) == 0
    ensures StateOf(h, start, stop).Speaking? ==> Run(h, false) == 0
    ensures StateOf(h + [b], start, stop) ==
            match StateOf(h, start, stop)
            case Quiet | Starting => if !b then Quiet else if Run(h, true) + 1 >= start then Speaking else Starting
            case Speaking | Stopping => if b then Speaking else if Run(h, false) + 1 >= stop then Quiet else Stopping
  {
    var g := h + [b];
    assert g[..|h|] == h;
    VoicedNext(h, b, start, stop);
    RunIsTrailing(g, true, start);
    RunIsTrailing(g, false, stop);
    hide Voiced, AllLast;
  }

  /** The gate compares reals with the two thresholds. */
  datatype VadParams = VadParams(confidence: real, minVolume: real)

  class VadStateMachine {
    var params: VadParams
    var startFrames: u32
    var stopFrames: u32
    var startingCount: u32
    var stoppingCount: u32
    var state: VadState
    /** The gated windows since creation or the last change of parameters. */
    ghost var history: seq<bool>

    /** State and counters are functions of the history; a count in use is below its threshold. */
    ghost predicate Valid()
      reads this
    {
      var start, stop := startFrames as nat, stopFrames as nat;
      && start > 0 && stop > 0
      && state == StateOf(history, start, stop)
      && startingCount as nat == (if state.Starting? then Run(history, true) else 0)
      && stoppingCount as nat == (if state.Stopping? then Run(history, false) else 0)
      && startingCount < startFrames
      && stoppingCount < stopFrames
    }

    /** The debounce thresholds are at least one, as `recompute_debounce` makes them. */
    constructor (params: VadParams, startFrames: u32, stopFrames: u32)
      requires startFrames > 0 && stopFrames > 0
      ensures Valid() && history == []
      ensures this.startFrames == startFrames && this.stopFrames == stopFrames && this.params == params
    {
      this.params, this.startFrames, this.stopFrames := params, startFrames, stopFrames;
      startingCount, stoppingCount, state, history := 0, 0, Quiet, [];
      NotVoicedAtStart(startFrames as nat, stopFrames as nat);
    }

    /** Forgets the history: the machine is as new, with the new parameters. */
    method SetParams(params: VadParams, startFrames: u32, stopFrames: u32)
      requires startFrames > 0 && stopFrames > 0
      modifies this
      ensures Valid() && history == [] && state == Quiet
      ensures this.startFrames == startFrames && this.stopFrames == stopFrames && this.params == params
    {
      this.params := params;
      startingCount, stoppingCount, state := 0, 0, Quiet;
      this.startFrames, this.stopFrames := startFrames, stopFrames;
      history := [];
      NotVoicedAtStart(startFrames as nat, stopFrames as nat);
    }

    /** No counter overflows: a count stops growing when it reaches its threshold. */
    method Advance(confidence: real, volume: real) returns (r: VadState)
      requires Valid()
      modifies this`state, this`startingCount, this`stoppingCount, this`history
      ensures Valid() && r == state
      ensures history == old(history) + [confidence >= params.confidence && volume >= params.minVolume]
    {
      var speaking := confidence >= params.confidence && volume >= params.minVolume;
      ghost var h, g := history, history + [speaking];
      StateNext(h, speaking, startFrames as nat, stopFrames as nat);
      hide StateOf, Run;
      history := g;
      if speaking {
        match state {
          case Quiet =>
            state := Starting;
            startingCount := 1;
          case Starting =>
            startingCount := startingCount + 1;
          case Stopping =>
            state := Speaking;
            stoppingCount := 0;
          case Speaking =>
        }
      } else {
        match state {
          case Starting =>
            state := Quiet;
            startingCount := 0;
          case Speaking =>
            state := Stopping;
            stoppingCount := 1;
          case Stopping =>
            stoppingCount := stoppingCount + 1;
          case Quiet =>
        }
      }
      if state == Starting && startingCount >= startFrames {
        state := Speaking;
        startingCount := 0;
      }
      if state == Stopping && stoppingCount >= stopFrames {
        state := Quiet;
        stoppingCount := 0;
      }
      r := state;
    }
  }
}
