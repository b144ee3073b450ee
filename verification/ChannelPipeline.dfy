/**
 The benchmark pipeline: a feeding task, a chain of relay stages joined by bounded FIFO
 channels, and a counting sink (bench-rs/src/main.rs).

 Every task is a small program counter; one `Step` is one `send`, one `recv`, or one join.
 The scheduler is free: any enabled step may come next. Channel `i` feeds stage `i`, the last
 channel feeds the sink, and the feeder keeps its sender until the run is over.
 */
module ChannelPipeline {

  datatype Frame = Audio(payload: seq<bv8>) | End

  /** A stage waits on `recv`, holds a frame it is trying to `send`, or has left its loop. */
  datatype Stage = Receiving | Sending(frame: Frame) | Exited

  datatype Sink = Counting(n: nat) | Returned(n: nat)

  /** `Feeding([])` awaits the sink; `Joining` awaits the stage handles in order. */
  datatype Driver = Feeding(unsent: seq<Frame>) | Joining(n: nat, joined: nat) | Panicked

  /** `delivered` is a history variable: every frame the sink has received. */
  datatype State = State(
    capacity: nat,
    driver: Driver,
    queues: seq<seq<Frame>>,
    stages: seq<Stage>,
    sink: Sink,
    delivered: seq<Frame>)

  datatype Step = Feed | Recv(i: nat) | Send(i: nat) | Drain | JoinSink | JoinHandle

  // ---------------------------------------------------------------- the step system

  predicate Shaped(s: State) {
    |s.queues| == |s.stages| + 1
  }

  /** The receiver of channel `i` has been dropped, so a `send` on it fails. */
  predicate ReceiverGone(s: State, i: nat)
    requires Shaped(s) && i < |s.queues|
  {
    if i < |s.stages| then s.stages[i].Exited? else s.sink.Returned?
  }

  /** Every sender of channel `i` has been dropped, so a `recv` on it ends once it is empty. */
  predicate SenderGone(s: State, i: nat)
    requires Shaped(s) && i < |s.queues|
  {
    i > 0 && s.stages[i - 1].Exited?
  }

  predicate CanSend(s: State, i: nat)
    requires Shaped(s) && i < |s.queues|
  {
    ReceiverGone(s, i) || |s.queues[i]| < s.capacity
  }

  predicate CanRecv(s: State, i: nat)
    requires Shaped(s) && i < |s.queues|
  {
    s.queues[i] != [] || SenderGone(s, i)
  }

  predicate Enabled(s: State, step: Step)
    requires Shaped(s)
  {
    match step
    case Feed => s.driver.Feeding? && s.driver.unsent != [] && CanSend(s, 0)
    case Recv(i) => i < |s.stages| && s.stages[i].Receiving? && CanRecv(s, i)
    case Send(i) => i < |s.stages| && s.stages[i].Sending? && CanSend(s, i + 1)
    case Drain => s.sink.Counting? && CanRecv(s, |s.stages|)
    case JoinSink => s.driver == Feeding([]) && s.sink.Returned?
    case JoinHandle => s.driver.Joining? && s.driver.joined < |s.stages| && s.stages[s.driver.joined].Exited?
  }

  function Push(s: State, i: nat, f: Frame): State
    requires i < |s.queues|
  {
    s.(queues := s.queues[i := s.queues[i] + [f]])
  }

  function Pop(s: State, i: nat): State
    requires i < |s.queues| && s.queues[i] != []
  {
    s.(queues := s.queues[i := s.queues[i][1..]])
  }

  function Next(s: State, step: Step): State
    requires Shaped(s) && Enabled(s, step)
  {
    match step
    case Feed =>
      if ReceiverGone(s, 0) then s.(driver := Panicked)
      else Push(s, 0, s.driver.unsent[0]).(driver := Feeding(s.driver.unsent[1..]))
    case Recv(i) =>
      if s.queues[i] == [] then s.(stages := s.stages[i := Exited])
      else Pop(s, i).(stages := s.stages[i := Sending(s.queues[i][0])])
    case Send(i) =>
      var f := s.stages[i].frame;
      if ReceiverGone(s, i + 1) then s.(stages := s.stages[i := Exited])
      else Push(s, i + 1, f).(stages := s.stages[i := if f.End? then Exited else Receiving])
    case Drain =>
      var last := |s.stages|;
      if s.queues[last] == [] then s.(sink := Returned(s.sink.n))
      else
        var f := s.queues[last][0];
        Pop(s, last).(
        sink := if f.End? then Returned(s.sink.n) else Counting(s.sink.n + 1),
        delivered := s.delivered + [f])
    case JoinSink => s.(driver := Joining(s.sink.n, 0))
    case JoinHandle => s.(driver := s.driver.(joined := s.driver.joined + 1))
  }

  function Init(stages: nat, capacity: nat, script: seq<Frame>): State {
    State(capacity, Feeding(script), seq(stages + 1, _ => []), seq(stages, _ => Receiving), Counting(0), [])
  }

  /** The run has returned its count: the sink and every stage handle have been joined. */
  predicate Final(s: State) {
    s.driver.Joining? && s.driver.joined == |s.stages| && forall i :: 0 <= i < |s.stages| ==> s.stages[i].Exited?
  }

  /** A send that fails or a receive that finds its channel closed. */
  predicate ChannelFault(s: State, step: Step)
    requires Shaped(s) && Enabled(s, step)
  {
    match step
    case Feed => ReceiverGone(s, 0)
    case Recv(i) => s.queues[i] == []
    case Send(i) => ReceiverGone(s, i + 1)
    case Drain => s.queues[|s.stages|] == []
    case JoinSink => false
    case JoinHandle => false
  }

  // ---------------------------------------------------------------- conservation

  function Hand(stage: Stage): seq<Frame> {
    if stage.Sending? then [stage.frame] else []
  }

  function Unsent(s: State): seq<Frame> {
    if s.driver.Feeding? then s.driver.unsent else []
  }

  /** Everything still to be received from channel `i`, oldest first. */
  function Upstream(s: State, i: nat): seq<Frame>
    requires Shaped(s) && i < |s.queues|
  {
    s.queues[i] + if i == 0 then Unsent(s) else Hand(s.stages[i - 1]) + Upstream(s, i - 1)
  }

  /** The oldest-first content of the whole pipeline, from the sink back to the feeder. */
  function Contents(s: State): seq<Frame>
    requires Shaped(s)
  {
    s.delivered + Upstream(s, |s.stages|)
  }

  /** A script is any number of audio frames followed by exactly one `End`. */
  predicate IsScript(script: seq<Frame>) {
    script != [] && script[|script| - 1].End? && forall i :: 0 <= i < |script| - 1 ==> script[i].Audio?
  }

  /** How many frames of the script have passed each place of the pipeline. */
  datatype Places = Places(sent: nat, received: seq<nat>, relayed: seq<nat>)

  /** How many frames have entered channel `i`. */
  function Entered(p: Places, i: nat): nat
    requires i <= |p.relayed|
  {
    if i == 0 then p.sent else p.relayed[i - 1]
  }

  ghost predicate QueueOk(s: State, script: seq<Frame>, p: Places, i: nat)
    requires i < |s.queues| && i < |p.received| && i <= |p.relayed|
  {
    && p.received[i] <= Entered(p, i) <= |script|
    && s.queues[i] == script[p.received[i]..Entered(p, i)]
    && |s.queues[i]| <= s.capacity
  }

  ghost predicate StageOk(stage: Stage, script: seq<Frame>, received: nat, relayed: nat) {
    match stage
    case Receiving => relayed == received < |script|
    case Sending(f) => relayed + 1 == received <= |script| && f == script[relayed]
    case Exited => relayed == received == |script|
  }

  ghost predicate SinkOk(sink: Sink, script: seq<Frame>, received: nat) {
    match sink
    case Counting(n) => n == received < |script|
    case Returned(n) => n + 1 == received == |script|
  }

  ghost predicate DriverOk(s: State, script: seq<Frame>, sent: nat) {
    match s.driver
    case Feeding(unsent) => sent <= |script| && unsent == script[sent..]
    case Joining(n, joined) => sent == |script| && s.sink == Returned(n) && joined <= |s.stages|
    case Panicked => false
  }

  /** Every queue and every hand is a window of the script; consecutive windows meet. */
  ghost predicate Inv(s: State, script: seq<Frame>, p: Places) {
    && Shaped(s)
    && IsScript(script)
    && |p.received| == |s.queues|
    && |p.relayed| == |s.stages|
    && DriverOk(s, script, p.sent)
    && (forall i: nat :: i < |s.queues| ==> QueueOk(s, script, p, i))
    && (forall i: nat :: i < |s.stages| ==> StageOk(s.stages[i], script, p.received[i], p.relayed[i]))
    && SinkOk(s.sink, script, p.received[|s.stages|])
    && s.delivered == script[..p.received[|s.stages|]]
  }

  lemma {:induction false} InitInv(stages: nat, capacity: nat, script: seq<Frame>) returns (p: Places)
    requires IsScript(script)
    ensures Inv(Init(stages, capacity, script), script, p)
    ensures p == Places(0, seq(stages + 1, _ => 0), seq(stages, _ => 0))
  {
    p := Places(0, seq(stages + 1, _ => 0), seq(stages, _ => 0));
  }

  lemma {:induction false} WindowsMeet(script: seq<Frame>, i: nat, j: nat, k: nat)
    requires i <= j <= k <= |script|
    ensures script[i..j] + (script[j..k] + script[k..]) == script[i..]
  {
  }

  lemma {:induction false} QueueIsWindow(s: State, script: seq<Frame>, p: Places, i: nat)
    requires Inv(s, script, p) && i < |s.queues|
    ensures Shaped(s) && |p.received| == |s.queues| && |p.relayed| == |s.stages|
    ensures p.received[i] <= Entered(p, i) <= |script| && s.queues[i] == script[p.received[i]..Entered(p, i)]
  {
    assert QueueOk(s, script, p, i);
  }

  /** The windows put together: everything upstream of a channel is the rest of the script. */
  lemma {:induction false} UpstreamIsRest(s: State, script: seq<Frame>, p: Places, i: nat)
    requires Inv(s, script, p) && i < |s.queues|
    ensures Shaped(s) && |p.received| == |s.queues| && p.received[i] <= |script|
    ensures Upstream(s, i) == script[p.received[i]..]
  {
    hide Inv, Hand, Unsent;
    QueueIsWindow(s, script, p, i);
    if i == 0 {
      UnsentIsRest(s, script, p);
      WindowsMeet(script, p.received[0], p.sent, p.sent);
    } else {
      UpstreamIsRest(s, script, p, i - 1);
      HandIsWindow(s, script, p, i - 1);
      WindowsMeet(script, p.received[i], p.relayed[i - 1], p.received[i - 1]);
    }
  }

  lemma {:induction false} UnsentIsRest(s: State, script: seq<Frame>, p: Places)
    requires Inv(s, script, p)
    ensures p.sent <= |script| && Unsent(s) == script[p.sent..p.sent] + script[p.sent..]
  {
  }

  lemma {:induction false} HandIsWindow(s: State, script: seq<Frame>, p: Places, i: nat)
    requires Inv(s, script, p) && i < |s.stages|
    ensures p.relayed[i] <= p.received[i] <= |script|
    ensures Hand(s.stages[i]) == script[p.relayed[i]..p.received[i]]
  {
    assert StageOk(s.stages[i], script, p.received[i], p.relayed[i]);
  }

  // ---------------------------------------------------------------- safety

  /** In a good state no send fails and no receive finds its channel closed. */
  lemma {:induction false} NoFault(s: State, script: seq<Frame>, p: Places, step: Step)
    requires Inv(s, script, p) && Enabled(s, step)
    ensures !ChannelFault(s, step)
  {
    match step
    case Feed => assert QueueOk(s, script, p, 0);
    case Recv(i) => assert QueueOk(s, script, p, i);
    case Send(i) => assert QueueOk(s, script, p, i + 1);
    case Drain => assert QueueOk(s, script, p, |s.stages|);
    case JoinSink =>
    case JoinHandle =>
  }

  /** One step moves one frame past one place. */
  function Moved(p: Places, step: Step): Places {
    match step
    case Feed => p.(sent := p.sent + 1)
    case Recv(i) => if i < |p.received| then p.(received := p.received[i := p.received[i] + 1]) else p
    case Send(i) => if i < |p.relayed| then p.(relayed := p.relayed[i := p.relayed[i] + 1]) else p
    case Drain =>
      if p.received == [] then p
      else var last := |p.received| - 1; p.(received := p.received[last := p.received[last] + 1])
    case JoinSink => p
    case JoinHandle => p
  }

  /** What one step does to the window of one queue. */
  lemma {:induction false} QueueWindowMoves(s: State, p: Places, step: Step, i: nat)
    requires Shaped(s) && Enabled(s, step) && !ChannelFault(s, step) && i < |s.queues|
    requires |p.received| == |s.queues| && |p.relayed| == |s.stages|
    ensures var into := step == (if i == 0 then Feed else Send(i - 1));
            var from := step == (if i < |s.stages| then Recv(i) else Drain);
            var t, q := Next(s, step), Moved(p, step);
            && q.received[i] == p.received[i] + (if from then 1 else 0)
            && Entered(q, i) == Entered(p, i) + (if into then 1 else 0)
            && |t.queues| == |s.queues| && |q.received| == |p.received|
                 && |q.relayed| == |p.relayed| && t.capacity == s.capacity
            && (into ==> t.queues[i] == s.queues[i] + [if i == 0 then s.driver.unsent[0] else s.stages[i - 1].frame])
            && (from ==> s.queues[i] != [] && t.queues[i] == s.queues[i][1..])
            && (!into && !from ==> t.queues[i] == s.queues[i])
  {
  }

  /** The frame put into a queue is the next one of the script, and there is room for it. */
  lemma {:induction false} NextIntoQueue(s: State, script: seq<Frame>, p: Places, step: Step, i: nat)
    requires Inv(s, script, p) && Enabled(s, step) && !ChannelFault(s, step) && i < |s.queues|
    requires step == if i == 0 then Feed else Send(i - 1)
    ensures |p.relayed| == |s.stages| && Entered(p, i) < |script| && |s.queues[i]| < s.capacity
    ensures script[Entered(p, i)] == if i == 0 then s.driver.unsent[0] else s.stages[i - 1].frame
  {
    hide QueueOk, IsScript, SinkOk;
    if i > 0 { assert StageOk(s.stages[i - 1], script, p.received[i - 1], p.relayed[i - 1]); }
  }

  lemma {:induction false} QueueStaysOk(s: State, script: seq<Frame>, p: Places, step: Step, i: nat)
    requires Inv(s, script, p) && Enabled(s, step) && !ChannelFault(s, step) && i < |s.queues|
    ensures QueueOk(Next(s, step), script, Moved(p, step), i)
  {
    QueueCapped(s, script, p, i);
    hide Inv, Enabled, ChannelFault;
    QueueIsWindow(s, script, p, i);
    QueueWindowMoves(s, p, step, i);
    hide Next, Moved;
    if step == if i == 0 then Feed else Send(i - 1) {
      NextIntoQueue(s, script, p, step, i);
    }
  }

  lemma {:induction false} QueueCapped(s: State, script: seq<Frame>, p: Places, i: nat)
    requires Inv(s, script, p) && i < |s.queues|
    ensures |s.queues[i]| <= s.capacity
  {
    assert QueueOk(s, script, p, i);
  }

  lemma {:induction false} StageStaysOk(s: State, script: seq<Frame>, p: Places, step: Step, i: nat)
    requires Inv(s, script, p) && Enabled(s, step) && !ChannelFault(s, step) && i < |s.stages|
    ensures StageOk(Next(s, step).stages[i], script, Moved(p, step).received[i], Moved(p, step).relayed[i])
  {
    assert QueueOk(s, script, p, i);
    assert StageOk(s.stages[i], script, p.received[i], p.relayed[i]);
  }

  lemma {:induction false} StepKeepsInv(s: State, script: seq<Frame>, p: Places, step: Step)
    requires Inv(s, script, p) && Enabled(s, step)
    ensures Inv(Next(s, step), script, Moved(p, step))
    ensures Shaped(Next(s, step)) && |Next(s, step).stages| == |s.stages| && Next(s, step).capacity == s.capacity
  {
    NoFault(s, script, p, step);
    var t, q := Next(s, step), Moved(p, step);
    forall i: nat | i < |t.queues| ensures QueueOk(t, script, q, i) { QueueStaysOk(s, script, p, step, i); }
    forall i: nat | i < |t.stages| ensures StageOk(t.stages[i], script, q.received[i], q.relayed[i]) {
      StageStaysOk(s, script, p, step, i);
    }
    if step.Drain? {
      assert QueueOk(s, script, p, |s.stages|);
    }
  }

  // ---------------------------------------------------------------- progress

  /** A consumer that is still in its loop leaves some step enabled, at or above its channel. */
  lemma {:induction false} SomeoneCanMove(s: State, script: seq<Frame>, p: Places, i: nat) returns (step: Step)
    requires Inv(s, script, p) && s.capacity >= 1 && i < |s.queues| && p.received[i] < |script|
    requires if i < |s.stages| then s.stages[i].Receiving? else s.sink.Counting?
    ensures Enabled(s, step)
  {
    assert QueueOk(s, script, p, i);
    if s.queues[i] != [] {
      step := if i < |s.stages| then Recv(i) else Drain;
    } else if i == 0 {
      step := Feed;
    } else if s.stages[i - 1].Sending? {
      step := Send(i - 1);
    } else {
      assert StageOk(s.stages[i - 1], script, p.received[i - 1], p.relayed[i - 1]);
      step := SomeoneCanMove(s, script, p, i - 1);
    }
  }

  /** Once everything has been received from a channel, everything above it is done. */
  lemma {:induction false} DoneAbove(s: State, script: seq<Frame>, p: Places, i: nat)
    requires Inv(s, script, p) && i < |s.queues| && p.received[i] == |script|
    ensures p.sent == |script|
    ensures forall j: nat :: j <= i ==> p.received[j] == |script|
    ensures forall j: nat :: j < i ==> s.stages[j].Exited? && p.relayed[j] == |script|
  {
    assert QueueOk(s, script, p, i);
    if i > 0 {
      assert StageOk(s.stages[i - 1], script, p.received[i - 1], p.relayed[i - 1]);
      DoneAbove(s, script, p, i - 1);
    }
  }

  /** No deadlock: a good state that is not final has an enabled step. */
  lemma {:induction false} NoDeadlock(s: State, script: seq<Frame>, p: Places) returns (step: Step)
    requires Inv(s, script, p) && s.capacity >= 1 && !Final(s)
    ensures Enabled(s, step)
  {
    if s.sink.Counting? {
      step := SomeoneCanMove(s, script, p, |s.stages|);
    } else {
      DoneAbove(s, script, p, |s.stages|);
      step := if s.driver.Feeding? then JoinSink else JoinHandle;
    }
  }

  // ---------------------------------------------------------------- termination

  function Sum(xs: seq<nat>): nat {
    if xs == [] then 0 else xs[0] + Sum(xs[1..])
  }

  lemma {:induction false} SumIncrement(xs: seq<nat>, i: nat)
    requires i < |xs|
    ensures Sum(xs[i := xs[i] + 1]) == Sum(xs) + 1
  {
    var ys := xs[i := xs[i] + 1];
    if i == 0 {
      assert ys[1..] == xs[1..];
    } else {
      assert ys[1..] == xs[1..][i - 1 := xs[1..][i - 1] + 1];
      SumIncrement(xs[1..], i - 1);
    }
  }

  lemma {:induction false} SumOfEqual(xs: seq<nat>, x: nat)
    requires forall i :: 0 <= i < |xs| ==> xs[i] == x
    ensures Sum(xs) == |xs| * x
  {
    if xs != [] {
      SumOfEqual(xs[1..], x);
      assert |xs| * x == |xs[1..]| * x + x;
    }
  }

  function Joins(s: State): nat {
    match s.driver
    case Feeding(_) => 0
    case Joining(_, joined) => 1 + joined
    case Panicked => 0
  }

  /** Hops made plus tasks joined so far. */
  function Progress(s: State, p: Places): nat {
    p.sent + Sum(p.received) + Sum(p.relayed) + Joins(s)
  }

  function TotalWork(stages: nat, frames: nat): nat {
    (2 * stages + 2) * frames + stages + 1
  }

  lemma {:induction false} StepMakesProgress(s: State, script: seq<Frame>, p: Places, step: Step)
    requires Inv(s, script, p) && Enabled(s, step)
    ensures Progress(Next(s, step), Moved(p, step)) == Progress(s, p) + 1
  {
    hide Sum, QueueOk, StageOk, IsScript, SinkOk;
    NoFault(s, script, p, step);
    match step
    case Feed =>
    case Recv(i) => SumIncrement(p.received, i);
    case Send(i) => SumIncrement(p.relayed, i);
    case Drain => SumIncrement(p.received, |s.stages|);
    case JoinSink =>
    case JoinHandle =>
  }

  lemma {:induction false} SumAtMost(xs: seq<nat>, x: nat)
    requires forall i :: 0 <= i < |xs| ==> xs[i] <= x
    ensures Sum(xs) <= |xs| * x
  {
    if xs != [] {
      SumAtMost(xs[1..], x);
      assert |xs| * x == |xs[1..]| * x + x;
    }
  }

  /** No place is passed more often than the script is long. */
  lemma {:induction false} PlacesBounded(s: State, script: seq<Frame>, p: Places)
    requires Inv(s, script, p)
    ensures p.sent <= |script| && Joins(s) <= |s.stages| + 1
    ensures |p.received| == |s.stages| + 1 && forall i :: 0 <= i < |p.received| ==> p.received[i] <= |script|
    ensures |p.relayed| == |s.stages| && forall i :: 0 <= i < |p.relayed| ==> p.relayed[i] <= |script|
  {
    forall i | 0 <= i < |p.received| ensures p.received[i] <= |script| { assert QueueOk(s, script, p, i); }
    forall i | 0 <= i < |p.relayed| ensures p.relayed[i] <= |script| { HandIsWindow(s, script, p, i); }
  }

  lemma {:induction false} FinalPlaces(s: State, script: seq<Frame>, p: Places)
    requires Inv(s, script, p) && Final(s)
    ensures p.sent == |script| && Joins(s) == |s.stages| + 1 && s.driver.n + 1 == |script|
    ensures forall i :: 0 <= i < |p.received| ==> p.received[i] == |script|
    ensures forall i :: 0 <= i < |p.relayed| ==> p.relayed[i] == |script|
  {
    DoneAbove(s, script, p, |s.stages|);
  }

  /** Progress is bounded, and complete in a final state. */
  lemma {:induction false} ProgressBound(s: State, script: seq<Frame>, p: Places)
    requires Inv(s, script, p)
    ensures Progress(s, p) <= TotalWork(|s.stages|, |script|)
    ensures Final(s) ==> Progress(s, p) == TotalWork(|s.stages|, |script|)
  {
    hide Inv, Sum;
    var n, frames := |s.stages|, |script|;
    PlacesBounded(s, script, p);
    SumAtMost(p.received, frames);
    SumAtMost(p.relayed, frames);
    assert (2 * n + 2) * frames == (n + 1) * frames + n * frames + frames;
    if Final(s) {
      FinalPlaces(s, script, p);
      SumOfEqual(p.received, frames);
      SumOfEqual(p.relayed, frames);
    }
  }

  // ---------------------------------------------------------------- whole runs

  /** `t` is reached from `s` by taking `steps`, in order, each of them enabled. */
  predicate Reaches(s: State, steps: seq<Step>, t: State)
    requires Shaped(s)
    decreases |steps|
  {
    if steps == [] then s == t
    else Enabled(s, steps[0]) && Shaped(Next(s, steps[0])) && Reaches(Next(s, steps[0]), steps[1..], t)
  }

  lemma {:induction false} ShapedIfGood(s: State, script: seq<Frame>, p: Places)
    requires Inv(s, script, p)
    ensures Shaped(s)
  {
  }

  lemma {:induction false} RunKeepsInv(s: State, script: seq<Frame>, p: Places, steps: seq<Step>, t: State)
    returns (q: Places)
    requires Inv(s, script, p) && Reaches(s, steps, t)
    ensures Inv(t, script, q) && Progress(t, q) == Progress(s, p) + |steps|
    ensures Shaped(t) && |t.stages| == |s.stages| && t.capacity == s.capacity
    decreases |steps|
  {
    hide Inv, Next, Moved, Progress, Enabled;
    ShapedIfGood(s, script, p);
    if steps == [] {
      q := p;
    } else {
      StepKeepsInv(s, script, p, steps[0]);
      StepMakesProgress(s, script, p, steps[0]);
      q := RunKeepsInv(Next(s, steps[0]), script, Moved(p, steps[0]), steps[1..], t);
    }
  }

  /** What the driver sends: `k` copies of one audio frame, then `End`. */
  function DriveScript(k: nat, payload: seq<bv8>): seq<Frame> {
    seq(k, _ => Audio(payload)) + [End]
  }

  lemma {:induction false} InitIsGood(n: nat, capacity: nat, k: nat, payload: seq<bv8>) returns (p: Places)
    ensures var script, s := DriveScript(k, payload), Init(n, capacity, DriveScript(k, payload));
            Inv(s, script, p) && Progress(s, p) == 0 && Shaped(s) && |s.stages| == n && s.capacity == capacity
  {
    p := InitInv(n, capacity, DriveScript(k, payload));
    SumOfEqual(p.received, 0);
    SumOfEqual(p.relayed, 0);
  }

  /** What a good state promises. */
  lemma {:induction false} GoodIsSafe(t: State, script: seq<Frame>, p: Places)
    requires Inv(t, script, p)
    ensures Shaped(t) && Contents(t) == script
    ensures forall i :: 0 <= i < |t.queues| ==> |t.queues[i]| <= t.capacity
    ensures forall step :: Enabled(t, step) ==> !ChannelFault(t, step)
    ensures !t.driver.Panicked?
    ensures t.sink.n < |script| && (t.sink.Returned? ==> t.sink.n + 1 == |script| && t.delivered == script)
  {
    hide Enabled, ChannelFault, IsScript, StageOk, Upstream;
    UpstreamIsRest(t, script, p, |t.stages|);
    forall i: nat | i < |t.queues| ensures |t.queues[i]| <= t.capacity { assert QueueOk(t, script, p, i); }
    forall step | Enabled(t, step) ensures !ChannelFault(t, step) { NoFault(t, script, p, step); }
    assert QueueOk(t, script, p, |t.stages|);
  }

  /**
   Safety of every run, for any number of stages, any capacity and any number of frames: nothing
   is lost, duplicated or reordered, no queue overflows, and no enabled step is a channel fault.
   */
  lemma {:induction false} RunIsSafe(n: nat, capacity: nat, k: nat, payload: seq<bv8>, steps: seq<Step>, t: State)
    requires Reaches(Init(n, capacity, DriveScript(k, payload)), steps, t)
    ensures Shaped(t) && Contents(t) == DriveScript(k, payload)
    ensures forall i :: 0 <= i < |t.queues| ==> |t.queues[i]| <= capacity
    ensures forall step :: Enabled(t, step) ==> !ChannelFault(t, step)
    ensures !t.driver.Panicked?
    ensures t.sink.n <= k && (t.sink.Returned? ==> t.sink.n == k && t.delivered == DriveScript(k, payload))
  {
    hide Inv, Enabled, ChannelFault, Contents, Reaches;
    var script := DriveScript(k, payload);
    var p := InitIsGood(n, capacity, k, payload);
    p := RunKeepsInv(Init(n, capacity, script), script, p, steps, t);
    GoodIsSafe(t, script, p);
  }

  /**
   Liveness of every run with capacity at least one. No run is longer than the fixed number of
   hops and joins; a run that can go no further is final, has made exactly that many steps, and
   returns exactly `k`.
   */
  lemma {:induction false} RunEnds(n: nat, capacity: nat, k: nat, payload: seq<bv8>, steps: seq<Step>, t: State)
    requires capacity >= 1 && Reaches(Init(n, capacity, DriveScript(k, payload)), steps, t)
    ensures Shaped(t) && |steps| <= TotalWork(n, k + 1)
    ensures (forall step :: !Enabled(t, step)) <==> Final(t)
    ensures Final(t) <==> |steps| == TotalWork(n, k + 1)
    ensures Final(t) ==> t.driver.n == k
  {
    hide Inv, Enabled, Next, Moved, Progress, Reaches, TotalWork;
    var script := DriveScript(k, payload);
    var p := InitIsGood(n, capacity, k, payload);
    p := RunKeepsInv(Init(n, capacity, script), script, p, steps, t);
    ProgressBound(t, script, p);
    forall step | Enabled(t, step) ensures Progress(t, p) < TotalWork(n, k + 1) {
      StepKeepsInv(t, script, p, step);
      StepMakesProgress(t, script, p, step);
      ProgressBound(Next(t, step), script, Moved(p, step));
    }
    if Final(t) {
      FinalPlaces(t, script, p);
    } else {
      var step := NoDeadlock(t, script, p);
      assert Enabled(t, step);
    }
  }

  /**
   The driver under an arbitrary scheduler, which may pick any enabled step whatever. It always
   terminates, and returns the number of frames it was asked to pump.
   */
  method Drive(n: nat, capacity: nat, k: nat, payload: seq<bv8>) returns (count: nat)
    requires capacity >= 1
    ensures count == k
  {
    hide Inv, Enabled, Next, Moved, Progress, TotalWork;
    ghost var script := DriveScript(k, payload);
    var s := Init(n, capacity, DriveScript(k, payload));
    ghost var p := InitIsGood(n, capacity, k, payload);
    while !Final(s)
      invariant Inv(s, script, p) && Shaped(s) && s.capacity == capacity && |s.stages| == n
      decreases TotalWork(n, k + 1) - Progress(s, p)
    {
      ghost var ready := NoDeadlock(s, script, p);
      var step := Schedule(s, ready);
      StepKeepsInv(s, script, p, step);
      StepMakesProgress(s, script, p, step);
      s, p := Next(s, step), Moved(p, step);
      ProgressBound(s, script, p);
    }
    FinalPlaces(s, script, p);
    count := s.driver.n;
  }

  /** Any enabled step at all; the scheduler promises nothing else. */
  method Schedule(s: State, ghost ready: Step) returns (step: Step)
    requires Shaped(s) && Enabled(s, ready)
    ensures Enabled(s, step)
  {
    var steps := {Feed, Drain, JoinSink, JoinHandle};
    for i := 0 to |s.stages|
      invariant {Feed, Drain, JoinSink, JoinHandle} <= steps
      invariant forall j: nat :: j < i ==> Recv(j) in steps && Send(j) in steps
    {
      steps := steps + {Recv(i), Send(i)};
    }
    assert ready in steps;
    step :| step in steps && Enabled(s, step);
  }
}
