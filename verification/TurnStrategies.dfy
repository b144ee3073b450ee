/**
 The end-of-turn and mute strategies (flowcat-core/src/audio/strategy.rs), as exact functions of
 the events they have been shown.
 */
module TurnStrategies {
  import opened Latch

  datatype Decision = Triggered | Waiting

  /** The frames, ticks and calls a stop strategy gets; times are in milliseconds, `stopSecs` in seconds. */
  datatype Event =
    | Started
    | Stopped(stopSecs: real)
    | Transcript(text: string, final_: bool)
    | OtherFrame
    | Tick(elapsed: real)
    | Predicted(complete: bool)
    | Reset

  type Setter = (seq<Event>, Event) -> bool

  // ---------------------------------------------------------------- what a history says

  predicate NewTurn(e: Event) {
    e.Started? || e.Reset?
  }

  predicate EndsSpeech(e: Event) {
    e.Stopped? || e.Reset?
  }

  predicate IsReset(e: Event) {
    e.Reset?
  }

  predicate Withdraws(e: Event) {
    NewTurn(e) || e == Predicted(false)
  }

  predicate BringsText(before: seq<Event>, e: Event) {
    e.Transcript? && e.text != ""
  }

  predicate BringsFinal(before: seq<Event>, e: Event) {
    e.Transcript? && e.final_
  }

  predicate StartsSpeech(before: seq<Event>, e: Event) {
    e.Started?
  }

  predicate Completes(before: seq<Event>, e: Event) {
    e == Predicted(true)
  }

  /** The user is speaking: started, and neither stopped nor reset since. */
  ghost predicate Speaking(h: seq<Event>) {
    Latched(h, StartsSpeech, EndsSpeech)
  }

  /** Some text since the last reset. */
  ghost predicate HasText(h: seq<Event>) {
    Latched(h, BringsText, IsReset)
  }

  /** A final transcript since the user last started to speak. */
  ghost predicate Finalized(h: seq<Event>) {
    Latched(h, BringsFinal, NewTurn)
  }

  /** The latest prediction since the user last started says complete. */
  ghost predicate Complete(h: seq<Event>) {
    Latched(h, Completes, Withdraws)
  }

  ghost function Elapses(timeout: real): Setter {
    (before: seq<Event>, e: Event) => e.Tick? && e.elapsed >= timeout && !Speaking(before)
  }

  /** A tick of at least `timeout` of silence since the user last started. */
  ghost predicate Silent(h: seq<Event>, timeout: real) {
    Latched(h, Elapses(timeout), NewTurn)
  }

  ghost function Settles(timeout: real): Setter {
    (before: seq<Event>, e: Event) =>
      || Elapses(timeout)(before, e)
      || BringsFinal(before, e)
      || (e.Stopped? && (Finalized(before) || e.stopSecs * 1000.0 >= timeout))
  }

  /** The speech-to-text wait is over since the user last started: by silence, by a final transcript,
      or at a stop which either follows one or has itself waited long enough. */
  ghost predicate Settled(h: seq<Event>, timeout: real) {
    Latched(h, Settles(timeout), NewTurn)
  }

  // ---------------------------------------------------------------- the two conditions

  ghost predicate AnalyzerReady(h: seq<Event>, sttTimeout: real) {
    HasText(h) && !Speaking(h) && Complete(h) && (Finalized(h) || Silent(h, sttTimeout))
  }

  ghost predicate TimeoutReady(h: seq<Event>, speechTimeout: real, sttTimeout: real) {
    HasText(h) && !Speaking(h) && Silent(h, speechTimeout) && Settled(h, sttTimeout)
  }

  /** How every flag changes with one more event. */
  lemma {:induction false} Step(h: seq<Event>, e: Event)
    ensures Speaking(h + [e]) <==> e.Started? || (Speaking(h) && !EndsSpeech(e))
    ensures HasText(h + [e]) <==> BringsText(h, e) || (HasText(h) && !e.Reset?)
    ensures Finalized(h + [e]) <==> BringsFinal(h, e) || (Finalized(h) && !NewTurn(e))
    ensures Complete(h + [e]) <==> e == Predicted(true) || (Complete(h) && !Withdraws(e))
  {
    LatchedStep(h, e, StartsSpeech, EndsSpeech);
    LatchedStep(h, e, BringsText, IsReset);
    LatchedStep(h, e, BringsFinal, NewTurn);
    LatchedStep(h, e, Completes, Withdraws);
  }

  lemma {:induction false} TimeoutStep(h: seq<Event>, e: Event, timeout: real)
    ensures Silent(h + [e], timeout)
            <==> (e.Tick? && e.elapsed >= timeout && !Speaking(h)) || (Silent(h, timeout) && !NewTurn(e))
    ensures Settled(h + [e], timeout) <==>
              || (e.Tick? && e.elapsed >= timeout && !Speaking(h))
              || BringsFinal(h, e)
              || (e.Stopped? && (Finalized(h) || e.stopSecs * 1000.0 >= timeout))
              || (Settled(h, timeout) && !NewTurn(e))
  {
    LatchedStep(h, e, Elapses(timeout), NewTurn);
    LatchedStep(h, e, Settles(timeout), NewTurn);
  }

  // ---------------------------------------------------------------- the same by positions in the history

  /** Before position `n` some start has neither a stop nor a reset behind it. */
  ghost predicate Talks(h: seq<Event>, n: nat)
    requires n <= |h|
  {
    exists k :: 0 <= k < n && h[k].Started? && forall j :: k < j < n ==> !h[j].Stopped? && !h[j].Reset?
  }

  /** No turn begins after position `i`. */
  ghost predicate SameTurn(h: seq<Event>, i: int)
    requires 0 <= i < |h|
  {
    forall j :: i < j < |h| ==> !h[j].Started? && !h[j].Reset?
  }

  /** A tick of at least `timeout` in silence, within this turn. */
  ghost predicate SilenceAt(h: seq<Event>, timeout: real, i: int) {
    0 <= i < |h| && h[i].Tick? && h[i].elapsed >= timeout && !Talks(h, i) && SameTurn(h, i)
  }

  /** A final transcript within the turn, all as of position `n`. */
  ghost predicate FinalBefore(h: seq<Event>, n: nat)
    requires n <= |h|
  {
    exists i :: 0 <= i < n && h[i].Transcript? && h[i].final_
                && forall j :: i < j < n ==> !h[j].Started? && !h[j].Reset?
  }

  lemma {:induction false} SpeakingIff(h: seq<Event>, n: nat)
    requires n <= |h|
    ensures Speaking(h[..n]) <==> Talks(h, n)
  {
    var t := h[..n];
    if Speaking(t) {
      var i :| SetAt(t, StartsSpeech, i) && forall j :: i < j < |t| ==> !EndsSpeech(t[j]);
      assert h[i].Started?;
      forall j | i < j < n ensures !h[j].Stopped? && !h[j].Reset? { assert !EndsSpeech(t[j]); }
    }
    if Talks(h, n) {
      var i :| 0 <= i < n && h[i].Started? && forall j :: i < j < n ==> !h[j].Stopped? && !h[j].Reset?;
      assert SetAt(t, StartsSpeech, i);
    }
  }

  lemma {:induction false} HasTextIff(h: seq<Event>)
    ensures HasText(h) <==> exists i :: 0 <= i < |h| && h[i].Transcript? && h[i].text != ""
                                        && forall j :: i < j < |h| ==> !h[j].Reset?
  {
    if HasText(h) {
      var i :| SetAt(h, BringsText, i) && forall j :: i < j < |h| ==> !IsReset(h[j]);
      assert h[i].Transcript? && h[i].text != "";
      forall j | i < j < |h| ensures !h[j].Reset? { assert !IsReset(h[j]); }
    }
    if i :| 0 <= i < |h| && h[i].Transcript? && h[i].text != "" && forall j :: i < j < |h| ==> !h[j].Reset? {
      assert SetAt(h, BringsText, i);
    }
  }

  lemma {:induction false} FinalizedIff(h: seq<Event>, n: nat)
    requires n <= |h|
    ensures Finalized(h[..n]) <==> FinalBefore(h, n)
  {
    var t := h[..n];
    if Finalized(t) {
      var i :| SetAt(t, BringsFinal, i) && forall j :: i < j < |t| ==> !NewTurn(t[j]);
      assert h[i].Transcript? && h[i].final_;
      forall j | i < j < n ensures !h[j].Started? && !h[j].Reset? { assert !NewTurn(t[j]); }
    }
    if FinalBefore(h, n) {
      var i :| 0 <= i < n && h[i].Transcript? && h[i].final_
               && forall j :: i < j < n ==> !h[j].Started? && !h[j].Reset?;
      assert SetAt(t, BringsFinal, i);
    }
  }

  lemma {:induction false} CompleteIff(h: seq<Event>)
    ensures Complete(h) <==> exists i :: 0 <= i < |h| && h[i] == Predicted(true) && SameTurn(h, i)
                                         && forall j :: i < j < |h| ==> h[j] != Predicted(false)
  {
    if Complete(h) {
      var i :| SetAt(h, Completes, i) && forall j :: i < j < |h| ==> !Withdraws(h[j]);
      assert h[i] == Predicted(true);
      forall j | i < j < |h| ensures !h[j].Started? && !h[j].Reset? && h[j] != Predicted(false) {
        assert !Withdraws(h[j]);
      }
      assert SameTurn(h, i);
    }
    if i :| 0 <= i < |h| && h[i] == Predicted(true) && SameTurn(h, i)
            && forall j :: i < j < |h| ==> h[j] != Predicted(false) {
      assert SetAt(h, Completes, i);
    }
  }

  lemma {:induction false} SilentIff(h: seq<Event>, timeout: real)
    ensures Silent(h, timeout) <==> exists i :: SilenceAt(h, timeout, i)
  {
    hide Speaking, Talks;
    if Silent(h, timeout) {
      var i :| SetAt(h, Elapses(timeout), i) && forall j :: i < j < |h| ==> !NewTurn(h[j]);
      SpeakingIff(h, i);
      forall j | i < j < |h| ensures !h[j].Started? && !h[j].Reset? { assert !NewTurn(h[j]); }
      assert SilenceAt(h, timeout, i);
    }
    if i :| SilenceAt(h, timeout, i) {
      SpeakingIff(h, i);
      assert SetAt(h, Elapses(timeout), i);
    }
  }

  /** What ends the speech-to-text wait at position `i`, within this turn. */
  ghost predicate SettledAt(h: seq<Event>, timeout: real, i: int) {
    && 0 <= i < |h| && SameTurn(h, i)
    && match h[i]
       case Tick(elapsed) => elapsed >= timeout && !Talks(h, i)
       case Transcript(_, final_) => final_
       case Stopped(stopSecs) => stopSecs * 1000.0 >= timeout || FinalBefore(h, i)
       case _ => false
  }

  lemma {:induction false} SettlesBy(before: seq<Event>, e: Event, timeout: real)
    ensures Settles(timeout)(before, e) <==>
              match e
              case Tick(elapsed) => elapsed >= timeout && !Speaking(before)
              case Transcript(_, final_) => final_
              case Stopped(stopSecs) => stopSecs * 1000.0 >= timeout || Finalized(before)
              case _ => false
  {
    hide Speaking, Finalized;
    assert Elapses(timeout)(before, e) <==> e.Tick? && e.elapsed >= timeout && !Speaking(before);
  }

  lemma {:induction false} SettledIff(h: seq<Event>, timeout: real)
    ensures Settled(h, timeout) <==> exists i :: SettledAt(h, timeout, i)
  {
    hide Speaking, Talks, Finalized, FinalBefore, Settles;
    if Settled(h, timeout) {
      var i :| SetAt(h, Settles(timeout), i) && forall j :: i < j < |h| ==> !NewTurn(h[j]);
      SpeakingIff(h, i);
      FinalizedIff(h, i);
      SettlesBy(h[..i], h[i], timeout);
      forall j | i < j < |h| ensures !h[j].Started? && !h[j].Reset? { assert !NewTurn(h[j]); }
      assert SettledAt(h, timeout, i);
    }
    if i :| SettledAt(h, timeout, i) {
      SpeakingIff(h, i);
      FinalizedIff(h, i);
      SettlesBy(h[..i], h[i], timeout);
      assert SetAt(h, Settles(timeout), i);
    }
  }

  /** When the analyzer's turn is ready: nobody is talking, text has come since the last reset, the latest
      word of the analyzer in this turn is that it is complete, and the transcript is final or silence
      has lasted long enough. */
  lemma {:induction false} AnalyzerReadyIff(h: seq<Event>, sttTimeout: real)
    ensures AnalyzerReady(h, sttTimeout) <==>
              && !Talks(h, |h|)
              && (exists i :: 0 <= i < |h| && h[i].Transcript? && h[i].text != ""
                              && forall j :: i < j < |h| ==> !h[j].Reset?)
              && (exists i :: 0 <= i < |h| && h[i] == Predicted(true) && SameTurn(h, i)
                              && forall j :: i < j < |h| ==> h[j] != Predicted(false))
              && (FinalBefore(h, |h|) || exists i :: SilenceAt(h, sttTimeout, i))
  {
    HasTextIff(h);
    CompleteIff(h);
    SilentIff(h, sttTimeout);
    SpeakingIff(h, |h|);
    FinalizedIff(h, |h|);
    assert h[..|h|] == h;
    hide Speaking, HasText, Complete, Finalized, Silent, Talks, SameTurn, FinalBefore, SilenceAt;
  }

  /** When the timed turn is ready: nobody is talking, text has come since the last reset, and both waits
      are over in this turn. */
  lemma {:induction false} TimeoutReadyIff(h: seq<Event>, speechTimeout: real, sttTimeout: real)
    ensures TimeoutReady(h, speechTimeout, sttTimeout) <==>
              && !Talks(h, |h|)
              && (exists i :: 0 <= i < |h| && h[i].Transcript? && h[i].text != ""
                              && forall j :: i < j < |h| ==> !h[j].Reset?)
              && (exists i :: SilenceAt(h, speechTimeout, i))
              && (exists i :: SettledAt(h, sttTimeout, i))
  {
    HasTextIff(h);
    SilentIff(h, speechTimeout);
    SettledIff(h, sttTimeout);
    SpeakingIff(h, |h|);
    assert h[..|h|] == h;
    hide Speaking, HasText, Settled, Silent, Talks, SettledAt, SilenceAt;
  }

  lemma {:induction false} NothingYet(timeout: real)
    ensures !Speaking([]) && !HasText([]) && !Finalized([]) && !Complete([])
            && !Silent([], timeout) && !Settled([], timeout)
  {
  }

  /** A turn that is ready stays ready until the user starts again, a reset, or a withdrawn prediction. */
  lemma {:induction false} AnalyzerStaysReady(h: seq<Event>, e: Event, sttTimeout: real)
    requires AnalyzerReady(h, sttTimeout)
    ensures AnalyzerReady(h + [e], sttTimeout) <==> !Withdraws(e)
  {
    hide Latched;
    Step(h, e);
    TimeoutStep(h, e, sttTimeout);
  }

  lemma {:induction false} TimeoutStaysReady(h: seq<Event>, e: Event, speechTimeout: real, sttTimeout: real)
    requires TimeoutReady(h, speechTimeout, sttTimeout)
    ensures TimeoutReady(h + [e], speechTimeout, sttTimeout) <==> !NewTurn(e)
  {
    hide Latched;
    Step(h, e);
    TimeoutStep(h, e, speechTimeout);
    TimeoutStep(h, e, sttTimeout);
  }

  /** Once the speech floor is at least the speech-to-text wait, the second wait decides nothing. */
  lemma {:induction false} LongFloorSettles(h: seq<Event>, speechTimeout: real, sttTimeout: real)
    requires speechTimeout >= sttTimeout && Silent(h, speechTimeout)
    ensures Settled(h, sttTimeout)
  {
    var i :| SetAt(h, Elapses(speechTimeout), i) && forall j :: i < j < |h| ==> !NewTurn(h[j]);
    assert Elapses(speechTimeout)(h[..i], h[i]);
    assert Elapses(sttTimeout)(h[..i], h[i]);
    assert SetAt(h, Settles(sttTimeout), i);
  }

  // ---------------------------------------------------------------- the turn-analyzer strategy

  class TurnAnalyzerStop {
    const sttTimeout: real
    var vadUserSpeaking: bool
    var turnComplete: bool
    var haveText: bool
    var transcriptFinalized: bool
    var timeoutExpired: bool
    ghost var events: seq<Event>

    ghost predicate Valid()
      reads this
    {
      && vadUserSpeaking == Speaking(events)
      && haveText == HasText(events)
      && turnComplete == Complete(events)
      && transcriptFinalized == Finalized(events)
      && timeoutExpired == Silent(events, sttTimeout)
    }

    constructor (sttTimeout: real)
      ensures Valid() && this.sttTimeout == sttTimeout && events == []
    {
      this.sttTimeout := sttTimeout;
      vadUserSpeaking, turnComplete, haveText, transcriptFinalized, timeoutExpired := false, false, false, false, false;
      events := [];
      new;
      NothingYet(sttTimeout);
    }

    method Evaluate() returns (d: Decision)
      requires Valid()
      ensures d.Triggered? <==> AnalyzerReady(events, sttTimeout)
    {
      if !haveText || !turnComplete || vadUserSpeaking {
        return Waiting;
      }
      return if transcriptFinalized || timeoutExpired then Triggered else Waiting;
    }

    /** `on_frame`: only a stop or a transcript can trigger. */
    method OnFrame(frame: Event) returns (d: Decision)
      requires Valid() && (frame.Started? || frame.Stopped? || frame.Transcript? || frame.OtherFrame?)
      modifies this
      ensures Valid() && events == old(events) + [frame]
      ensures d.Triggered? <==> (frame.Stopped? || frame.Transcript?) && AnalyzerReady(events, sttTimeout)
    {
      hide Latched;
      Step(events, frame);
      TimeoutStep(events, frame, sttTimeout);
      events := events + [frame];
      match frame {
        case Started =>
          vadUserSpeaking, turnComplete, transcriptFinalized, timeoutExpired := true, false, false, false;
          return Waiting;
        case Stopped(_) =>
          vadUserSpeaking := false;
          d := Evaluate();
        case Transcript(text, final_) =>
          if text != "" {
            haveText := true;
          }
          if final_ {
            transcriptFinalized := true;
          }
          d := Evaluate();
        case _ =>
          return Waiting;
      }
    }

    /** `on_silence_tick` */
    method OnSilenceTick(elapsed: real) returns (d: Decision)
      requires Valid()
      modifies this
      ensures Valid() && events == old(events) + [Tick(elapsed)]
      ensures d.Triggered? <==> AnalyzerReady(events, sttTimeout)
    {
      hide Latched;
      Step(events, Tick(elapsed));
      TimeoutStep(events, Tick(elapsed), sttTimeout);
      events := events + [Tick(elapsed)];
      if !vadUserSpeaking && elapsed >= sttTimeout {
        timeoutExpired := true;
      }
      d := Evaluate();
    }

    /** `set_turn_complete` */
    method SetTurnComplete(complete: bool) returns (d: Decision)
      requires Valid()
      modifies this
      ensures Valid() && events == old(events) + [Predicted(complete)]
      ensures d.Triggered? <==> AnalyzerReady(events, sttTimeout)
    {
      hide Latched;
      Step(events, Predicted(complete));
      TimeoutStep(events, Predicted(complete), sttTimeout);
      events := events + [Predicted(complete)];
      turnComplete := complete;
      d := Evaluate();
    }

    /** `reset` */
    method ResetTurn()
      requires Valid()
      modifies this
      ensures Valid() && events == old(events) + [Reset]
    {
      hide Latched;
      Step(events, Reset);
      TimeoutStep(events, Reset, sttTimeout);
      events := events + [Reset];
      vadUserSpeaking, turnComplete, haveText, transcriptFinalized, timeoutExpired := false, false, false, false, false;
    }
  }

  // ---------------------------------------------------------------- the speech-timeout strategy

  class SpeechTimeoutStop {
    const speechTimeout: real
    const sttTimeout: real
    var vadUserSpeaking: bool
    var haveText: bool
    var transcriptFinalized: bool
    var userSpeechDone: bool
    var sttDone: bool
    ghost var events: seq<Event>

    ghost predicate Valid()
      reads this
    {
      && vadUserSpeaking == Speaking(events)
      && haveText == HasText(events)
      && transcriptFinalized == Finalized(events)
      && userSpeechDone == Silent(events, speechTimeout)
      && sttDone == Settled(events, sttTimeout)
    }

    constructor (speechTimeout: real, sttTimeout: real)
      ensures Valid() && this.speechTimeout == speechTimeout && this.sttTimeout == sttTimeout && events == []
    {
      this.speechTimeout, this.sttTimeout := speechTimeout, sttTimeout;
      vadUserSpeaking, haveText, transcriptFinalized, userSpeechDone, sttDone := false, false, false, false, false;
      events := [];
      new;
      NothingYet(speechTimeout);
      NothingYet(sttTimeout);
    }

    method Evaluate() returns (d: Decision)
      requires Valid()
      ensures d.Triggered? <==> TimeoutReady(events, speechTimeout, sttTimeout)
    {
      if vadUserSpeaking || !haveText {
        return Waiting;
      }
      return if userSpeechDone && sttDone then Triggered else Waiting;
    }

    /** `on_frame`: only a stop or a transcript can trigger. */
    method OnFrame(frame: Event) returns (d: Decision)
      requires Valid() && (frame.Started? || frame.Stopped? || frame.Transcript? || frame.OtherFrame?)
      modifies this
      ensures Valid() && events == old(events) + [frame]
      ensures d.Triggered? <==> (frame.Stopped? || frame.Transcript?) && TimeoutReady(events, speechTimeout, sttTimeout)
    {
      hide Latched;
      Step(events, frame);
      TimeoutStep(events, frame, speechTimeout);
      TimeoutStep(events, frame, sttTimeout);
      events := events + [frame];
      match frame {
        case Started =>
          vadUserSpeaking, transcriptFinalized, userSpeechDone, sttDone := true, false, false, false;
          return Waiting;
        case Stopped(stopSecs) =>
          vadUserSpeaking := false;
          if transcriptFinalized || stopSecs * 1000.0 >= sttTimeout {
            sttDone := true;
          }
          d := Evaluate();
        case Transcript(text, final_) =>
          if text != "" {
            haveText := true;
          }
          if final_ {
            transcriptFinalized := true;
            sttDone := true;
          }
          d := Evaluate();
        case _ =>
          return Waiting;
      }
    }

    /** `on_silence_tick` */
    method OnSilenceTick(elapsed: real) returns (d: Decision)
      requires Valid()
      modifies this
      ensures Valid() && events == old(events) + [Tick(elapsed)]
      ensures d.Triggered? <==> TimeoutReady(events, speechTimeout, sttTimeout)
    {
      hide Latched;
      Step(events, Tick(elapsed));
      TimeoutStep(events, Tick(elapsed), speechTimeout);
      TimeoutStep(events, Tick(elapsed), sttTimeout);
      events := events + [Tick(elapsed)];
      if !vadUserSpeaking {
        if elapsed >= speechTimeout {
          userSpeechDone := true;
        }
        if elapsed >= sttTimeout {
          sttDone := true;
        }
      }
      d := Evaluate();
    }

    /** `reset` */
    method ResetTurn()
      requires Valid()
      modifies this
      ensures Valid() && events == old(events) + [Reset]
    {
      hide Latched;
      Step(events, Reset);
      TimeoutStep(events, Reset, speechTimeout);
      TimeoutStep(events, Reset, sttTimeout);
      events := events + [Reset];
      vadUserSpeaking, haveText, transcriptFinalized, userSpeechDone, sttDone := false, false, false, false, false;
    }
  }

  // ---------------------------------------------------------------- muting during function calls

  datatype CallEvent = CallsStarted(ids: seq<string>) | CallResult(id: string) | CallCancel(id: string) | OtherCallFrame

  function StartsCall(id: string): (seq<CallEvent>, CallEvent) -> bool {
    (before: seq<CallEvent>, e: CallEvent) => e.CallsStarted? && id in e.ids
  }

  function EndsCall(id: string): CallEvent -> bool {
    (e: CallEvent) => e == CallResult(id) || e == CallCancel(id)
  }

  /** The latest event about this call is its start. */
  ghost predicate InFlight(h: seq<CallEvent>, id: string) {
    Latched(h, StartsCall(id), EndsCall(id))
  }

  /** By positions: it was started, and neither answered nor cancelled since. */
  lemma {:induction false} InFlightIff(h: seq<CallEvent>, id: string)
    ensures InFlight(h, id) <==> exists i :: 0 <= i < |h| && h[i].CallsStarted? && id in h[i].ids
                                    && forall j :: i < j < |h| ==> h[j] != CallResult(id) && h[j] != CallCancel(id)
  {
    if InFlight(h, id) {
      var i :| SetAt(h, StartsCall(id), i) && forall j :: i < j < |h| ==> !EndsCall(id)(h[j]);
      assert h[i].CallsStarted? && id in h[i].ids;
      forall j | i < j < |h| ensures h[j] != CallResult(id) && h[j] != CallCancel(id) { assert !EndsCall(id)(h[j]); }
    }
    if i :| 0 <= i < |h| && h[i].CallsStarted? && id in h[i].ids
            && forall j :: i < j < |h| ==> h[j] != CallResult(id) && h[j] != CallCancel(id) {
      assert SetAt(h, StartsCall(id), i);
    }
  }

  lemma {:induction false} InFlightStep(h: seq<CallEvent>, e: CallEvent, id: string)
    ensures InFlight(h + [e], id) <==>
              (e.CallsStarted? && id in e.ids) || (InFlight(h, id) && e != CallResult(id) && e != CallCancel(id))
  {
    LatchedStep(h, e, StartsCall(id), EndsCall(id));
  }

  class FunctionCallMute {
    var inProgress: set<string>
    ghost var events: seq<CallEvent>

    ghost predicate Valid()
      reads this
    {
      forall id :: id in inProgress <==> InFlight(events, id)
    }

    constructor ()
      ensures Valid() && events == []
    {
      inProgress, events := {}, [];
    }

    /** `on_frame`: muted exactly while some call is in flight. */
    method OnFrame(frame: CallEvent) returns (muted: bool)
      requires Valid()
      modifies this
      ensures Valid() && events == old(events) + [frame]
      ensures muted <==> exists id :: InFlight(events, id)
    {
      hide InFlight;
      forall id
        ensures InFlight(events + [frame], id) <==>
                  (frame.CallsStarted? && id in frame.ids)
                    || (InFlight(events, id) && frame != CallResult(id) && frame != CallCancel(id))
      {
        InFlightStep(events, frame, id);
      }
      events := events + [frame];
      match frame {
        case CallsStarted(ids) =>
          ghost var before := inProgress;
          for i := 0 to |ids|
            invariant events == old(events) + [frame]
            invariant forall id :: id in inProgress <==> id in before || id in ids[..i]
          {
            inProgress := inProgress + {ids[i]};
          }
          assert ids[..|ids|] == ids;
        case CallResult(id) =>
          inProgress := inProgress - {id};
        case CallCancel(id) =>
          inProgress := inProgress - {id};
        case _ =>
      }
      muted := Muted();
    }

    method Muted() returns (b: bool)
      requires Valid()
      ensures b <==> exists id :: InFlight(events, id)
    {
      hide InFlight;
      b := inProgress != {};
      if b {
        ghost var id :| id in inProgress;
        assert InFlight(events, id);
      }
    }
  }
}
