/**
 The scripted menu navigator (flowcat-core/src/agent/ivr.rs): each prompt is tried against the step
 at the cursor only.
 */
module Navigation {
  import opened Text

  datatype Action = Dtmf(digits: seq<char>) | Say(reply: string) | Wait

  datatype Step = Step(triggers: seq<string>, action: Action)

  datatype Status = Completed | Stuck

  datatype Frame =
    | Transcription(text: string)
    | OutputDtmf(digits: seq<char>)
    | TtsSpeak(text: string)
    | StatusChanged(status: Status)
    | OtherFrame(payload: string)

  predicate Contains(text: string, pattern: string) {
    Find(text, pattern, 0).Some?
  }

  /** Some trigger stands somewhere in the prompt. */
  predicate Matches(s: Step, prompt: string) {
    exists t :: t in s.triggers && Contains(prompt, t)
  }

  /** A prompt matches wherever in it one of the triggers stands. */
  lemma {:induction false} MatchesIff(s: Step, prompt: string)
    ensures Matches(s, prompt) <==> exists t, at: nat :: t in s.triggers && OccursAt(prompt, t, at)
  {
    hide OccursAt;
    forall t ensures Contains(prompt, t) <==> exists at: nat :: OccursAt(prompt, t, at) {
      FindIsFirst(prompt, t, 0);
      if Contains(prompt, t) { assert OccursAt(prompt, t, Find(prompt, t, 0).value); }
    }
  }

  // ---------------------------------------------------------------- the cursor after a list of prompts

  function Greedy(steps: seq<Step>, prompts: seq<string>): (c: nat)
    ensures c <= |steps|
  {
    if prompts == [] then 0
    else
      var c := Greedy(steps, prompts[..|prompts| - 1]);
      if c < |steps| && Matches(steps[c], prompts[|prompts| - 1]) then c + 1 else c
  }

  lemma {:induction false} GreedyGrows(steps: seq<Step>, prompts: seq<string>, i: nat, j: nat)
    requires i <= j <= |prompts|
    ensures Greedy(steps, prompts[..i]) <= Greedy(steps, prompts[..j])
    decreases j
  {
    if i < j {
      GreedyGrows(steps, prompts, i, j - 1);
      assert prompts[..j][..j - 1] == prompts[..j - 1];
    }
  }

  /** Strictly later prompts for each of the first steps, every prompt matching its step. */
  ghost predicate IsAssignment(steps: seq<Step>, prompts: seq<string>, at: seq<nat>) {
    && |at| <= |steps|
    && (forall i :: 0 <= i < |at| ==> at[i] < |prompts| && Matches(steps[i], prompts[at[i]]))
    && (forall i, j :: 0 <= i < j < |at| ==> at[i] < at[j])
  }

  /** Greedy is complete: the cursor gets as far as any assignment of prompts to steps does. */
  lemma {:induction false} GreedyIsComplete(steps: seq<Step>, prompts: seq<string>, m: nat)
    ensures m <= Greedy(steps, prompts) <==> exists at :: |at| == m && IsAssignment(steps, prompts, at)
  {
    if m <= Greedy(steps, prompts) {
      var at := GreedyAssigns(steps, prompts, m);
    }
    if at :| |at| == m && IsAssignment(steps, prompts, at) {
      GreedyKeepsUp(steps, prompts, at);
    }
  }

  lemma {:induction false} GreedyAssigns(steps: seq<Step>, prompts: seq<string>, m: nat) returns (at: seq<nat>)
    requires m <= Greedy(steps, prompts)
    ensures |at| == m && IsAssignment(steps, prompts, at)
    decreases |prompts|
  {
    hide Matches;
    if prompts == [] {
      return [];
    }
    var front := prompts[..|prompts| - 1];
    if m <= Greedy(steps, front) {
      at := GreedyAssigns(steps, front, m);
    } else {
      at := GreedyAssigns(steps, front, m - 1);
      at := at + [|front|];
    }
  }

  lemma {:induction false} GreedyKeepsUp(steps: seq<Step>, prompts: seq<string>, at: seq<nat>)
    requires IsAssignment(steps, prompts, at)
    ensures |at| <= Greedy(steps, prompts)
    decreases |prompts|
  {
    hide Matches;
    if at != [] {
      assert at[0] < |prompts|;
      var n, front := |prompts| - 1, prompts[..|prompts| - 1];
      var head, last := at[..|at| - 1], at[|at| - 1];
      forall i | 0 <= i < |head| ensures head[i] < last && front[head[i]] == prompts[head[i]] {
        assert at[i] < at[|at| - 1];
      }
      if last < n {
        assert IsAssignment(steps, front, at);
        GreedyKeepsUp(steps, front, at);
      } else {
        assert IsAssignment(steps, front, head);
        GreedyKeepsUp(steps, front, head);
      }
    }
  }

  // ---------------------------------------------------------------- when a run ends

  ghost predicate IsComplete(steps: seq<Step>, prompts: seq<string>) {
    steps != [] && Greedy(steps, prompts) == |steps|
  }

  /** The last `stuckAfter` prompts moved nothing; 0 means unlimited patience. */
  ghost predicate IsStuck(steps: seq<Step>, stuckAfter: nat, prompts: seq<string>) {
    && 0 < stuckAfter <= |prompts|
    && !IsComplete(steps, prompts)
    && Greedy(steps, prompts[..|prompts| - stuckAfter]) == Greedy(steps, prompts)
  }

  ghost predicate Over(steps: seq<Step>, stuckAfter: nat, prompts: seq<string>) {
    IsComplete(steps, prompts) || IsStuck(steps, stuckAfter, prompts)
  }

  /** With unlimited patience a non-empty script is over exactly when some assignment matches every step. */
  lemma {:induction false} PatientRunCompletesIff(steps: seq<Step>, prompts: seq<string>)
    requires steps != []
    ensures (exists n :: 0 <= n <= |prompts| && Over(steps, 0, prompts[..n]))
            <==> exists at :: |at| == |steps| && IsAssignment(steps, prompts, at)
  {
    GreedyIsComplete(steps, prompts, |steps|);
    assert prompts[..|prompts|] == prompts;
    if Greedy(steps, prompts) == |steps| {
      assert Over(steps, 0, prompts[..|prompts|]);
    }
    if n :| 0 <= n <= |prompts| && Over(steps, 0, prompts[..n]) {
      GreedyGrows(steps, prompts, n, |prompts|);
    }
  }

  lemma {:induction false} OneLetter(c: char, d: char)
    ensures Contains([c], [d]) <==> c == d
  {
    FindIsFirst([c], [d], 0);
    assert [c][0..1] == [c];
    if c == d { assert OccursAt([c], [d], 0); }
  }

  /** With limited patience it is not: the greedy cursor can get stuck although an assignment exists. */
  lemma {:induction false} ImpatienceCanMissAssignments()
    ensures var steps, prompts := [Step(["a"], Wait), Step(["b"], Wait)], ["a", "a", "x", "b"];
            && IsAssignment(steps, prompts, [1, 3])
            && IsStuck(steps, 2, prompts[..3])
            && forall n :: 0 <= n < 3 ==> !Over(steps, 2, prompts[..n])
  {
    hide Contains;
    var steps, prompts := [Step(["a"], Wait), Step(["b"], Wait)], ["a", "a", "x", "b"];
    OneLetter('a', 'a');
    OneLetter('b', 'b');
    OneLetter('a', 'b');
    OneLetter('x', 'b');
    assert Matches(steps[0], "a") by { assert "a" in steps[0].triggers; }
    assert Matches(steps[1], "b") by { assert "b" in steps[1].triggers; }
    assert !Matches(steps[1], "a") && !Matches(steps[1], "x");
    hide Matches;
    assert prompts[..0] == [] && prompts[..1] == ["a"] && prompts[..2] == ["a", "a"] && prompts[..3] == ["a", "a", "x"];
    GreedyStep(steps, ["a"], 0);
    GreedyStep(steps, ["a", "a"], 1);
    GreedyStep(steps, ["a", "a", "x"], 2);
    assert ["a"][..0] == [] && ["a", "a"][..1] == ["a"] && ["a", "a", "x"][..2] == ["a", "a"]
           && ["a", "a", "x"][..1] == ["a"];
  }

  /** Where the search for the `i`th step begins. */
  function From(at: seq<nat>, i: nat): nat
    requires i <= |at|
  {
    if i == 0 then 0 else at[i - 1] + 1
  }

  /** Each step takes the first prompt that matches it after the one before, and waits for fewer than `k` others. */
  ghost predicate IsEarliest(steps: seq<Step>, prompts: seq<string>, at: seq<nat>, k: nat) {
    && |at| <= |steps|
    && forall i: nat :: i < |at| ==> EarliestAt(steps, prompts, at, k, i)
  }

  ghost predicate EarliestAt(steps: seq<Step>, prompts: seq<string>, at: seq<nat>, k: nat, i: nat)
    requires i < |at| <= |steps|
  {
    IsNextMatch(steps[i], prompts, From(at, i), at[i]) && at[i] < From(at, i) + k
  }

  ghost predicate IsNextMatch(s: Step, prompts: seq<string>, from: nat, at: nat) {
    from <= at < |prompts| && Matches(s, prompts[at]) && forall q: nat :: from <= q < at ==> !Matches(s, prompts[q])
  }

  /** The prompts at which the cursor moves. */
  ghost predicate AreMoves(steps: seq<Step>, prompts: seq<string>, at: seq<nat>) {
    forall i: nat :: i < |at| ==> MovesAt(steps, prompts, i, at[i])
  }

  ghost predicate MovesAt(steps: seq<Step>, prompts: seq<string>, i: nat, n: nat) {
    n < |prompts| && Greedy(steps, prompts[..n]) == i && Greedy(steps, prompts[..n + 1]) == i + 1
  }

  lemma {:induction false} GreedyAt(steps: seq<Step>, prompts: seq<string>, n: nat)
    requires n < |prompts|
    ensures var c := Greedy(steps, prompts[..n]);
            Greedy(steps, prompts[..n + 1]) == if c < |steps| && Matches(steps[c], prompts[n]) then c + 1 else c
  {
    assert prompts[..n + 1][..n] == prompts[..n];
  }

  lemma {:induction false} MovesOf(steps: seq<Step>, prompts: seq<string>, n: nat) returns (at: seq<nat>)
    requires n <= |prompts|
    ensures |at| == Greedy(steps, prompts[..n]) && AreMoves(steps, prompts, at)
    ensures forall i :: 0 <= i < |at| ==> at[i] < n
  {
    if n == 0 {
      at := [];
    } else {
      at := MovesOf(steps, prompts, n - 1);
      GreedyAt(steps, prompts, n - 1);
      if Greedy(steps, prompts[..n]) > |at| {
        at := at + [n - 1];
      }
    }
  }

  /** Between two moves the cursor stands still. */
  lemma {:induction false} StandsBetween(steps: seq<Step>, prompts: seq<string>, at: seq<nat>, i: nat, n: nat)
    requires AreMoves(steps, prompts, at) && i < |at| && From(at, i) <= n <= at[i]
    ensures n <= |prompts| && Greedy(steps, prompts[..n]) == i
  {
    hide Greedy;
    assert MovesAt(steps, prompts, i, at[i]);
    if i == 0 {
      assert prompts[..0] == [];
      GreedyStarts(steps);
    } else {
      assert MovesAt(steps, prompts, i - 1, at[i - 1]);
    }
    GreedyGrows(steps, prompts, From(at, i), n);
    GreedyGrows(steps, prompts, n, at[i]);
  }

  lemma {:induction false} GreedyStarts(steps: seq<Step>)
    ensures Greedy(steps, []) == 0
  {
  }

  lemma {:induction false} MovesInOrder(steps: seq<Step>, prompts: seq<string>, at: seq<nat>, i: nat)
    requires AreMoves(steps, prompts, at) && i < |at|
    ensures From(at, i) <= at[i] < |prompts|
  {
    hide Greedy;
    assert MovesAt(steps, prompts, i, at[i]);
    if i > 0 {
      assert MovesAt(steps, prompts, i - 1, at[i - 1]);
      if at[i] + 1 <= at[i - 1] + 1 { GreedyGrows(steps, prompts, at[i] + 1, at[i - 1] + 1); }
    }
  }

  /** The cursor moves at the first match after its last move. */
  lemma {:induction false} MovesAreMatches(steps: seq<Step>, prompts: seq<string>, at: seq<nat>, i: nat)
    requires AreMoves(steps, prompts, at) && i < |at| <= |steps|
    ensures IsNextMatch(steps[i], prompts, From(at, i), at[i])
  {
    hide Greedy, Matches;
    MovesInOrder(steps, prompts, at, i);
    assert MovesAt(steps, prompts, i, at[i]);
    GreedyAt(steps, prompts, at[i]);
    forall q: nat | From(at, i) <= q < at[i] ensures !Matches(steps[i], prompts[q]) {
      StandsBetween(steps, prompts, at, i, q);
      StandsBetween(steps, prompts, at, i, q + 1);
      GreedyAt(steps, prompts, q);
    }
  }

  /** Where the first matches are, the cursor moves. */
  lemma {:induction false} MatchMoves(steps: seq<Step>, prompts: seq<string>, at: seq<nat>, k: nat, i: nat)
    requires IsEarliest(steps, prompts, at, k) && i < |at|
    ensures MovesAt(steps, prompts, i, at[i])
  {
    hide Greedy, Matches;
    assert EarliestAt(steps, prompts, at, k, i);
    if i == 0 {
      assert prompts[..0] == [];
      GreedyStarts(steps);
    } else {
      MatchMoves(steps, prompts, at, k, i - 1);
    }
    NoMatchNoMove(steps, prompts, i, From(at, i), at[i]);
    GreedyAt(steps, prompts, at[i]);
  }

  lemma {:induction false} NoMatchNoMove(steps: seq<Step>, prompts: seq<string>, i: nat, from: nat, to: nat)
    requires from <= to <= |prompts| && i < |steps| && Greedy(steps, prompts[..from]) == i
    requires forall q: nat :: from <= q < to ==> !Matches(steps[i], prompts[q])
    ensures Greedy(steps, prompts[..to]) == i
  {
    hide Greedy, Matches;
    if from < to {
      NoMatchNoMove(steps, prompts, i, from, to - 1);
      GreedyAt(steps, prompts, to - 1);
    }
  }

  /** The script completes, and at no shorter list of prompts has the run ended. */
  ghost predicate Completes(steps: seq<Step>, k: nat, prompts: seq<string>, n: nat)
    requires n <= |prompts|
  {
    IsComplete(steps, prompts[..n]) && forall m :: 0 <= m < n ==> !Over(steps, k, prompts[..m])
  }

  lemma {:induction false} IdleTooLong(steps: seq<Step>, k: nat, prompts: seq<string>, at: seq<nat>, i: nat)
    requires AreMoves(steps, prompts, at) && i < |at| <= |steps| && 0 < k && From(at, i) + k <= at[i] < |prompts|
    ensures IsStuck(steps, k, prompts[..From(at, i) + k])
  {
    hide Greedy;
    var from := From(at, i);
    StandsBetween(steps, prompts, at, i, from);
    StandsBetween(steps, prompts, at, i, from + k);
    assert prompts[..from + k][..from] == prompts[..from];
  }

  /** Before the cursor has moved to the end no prompt list is over, if no wait reaches `k`. */
  lemma {:induction false} NeverIdle(steps: seq<Step>, k: nat, prompts: seq<string>, at: seq<nat>, m: nat)
    requires IsEarliest(steps, prompts, at, k) && AreMoves(steps, prompts, at) && |at| == |steps| > 0
    requires 0 < k && m <= at[|at| - 1]
    ensures m <= |prompts| && !Over(steps, k, prompts[..m])
  {
    hide Greedy, Matches;
    var last := |at| - 1;
    assert MovesAt(steps, prompts, last, at[last]);
    GreedyGrows(steps, prompts, m, at[last]);
    var i := Greedy(steps, prompts[..m]);
    assert MovesAt(steps, prompts, i, at[i]);
    if m > at[i] { GreedyGrows(steps, prompts, at[i] + 1, m); }
    assert m < From(at, i) + k by { assert EarliestAt(steps, prompts, at, k, i); }
    if k <= m {
      assert prompts[..m][..m - k] == prompts[..m - k];
      assert i > 0;
      assert MovesAt(steps, prompts, i - 1, at[i - 1]);
      GreedyGrows(steps, prompts, m - k, at[i - 1]);
    }
  }

  /**
   With a positive limit a non-empty script completes exactly when taking the first match for every
   step never waits for `k` prompts in vain.
   */
  lemma {:induction false} ImpatientRunCompletesIff(steps: seq<Step>, k: nat, prompts: seq<string>)
    requires steps != [] && k > 0
    ensures (exists n :: 0 <= n <= |prompts| && Completes(steps, k, prompts, n))
            <==> exists at :: |at| == |steps| && IsEarliest(steps, prompts, at, k)
  {
    hide Completes, IsEarliest;
    if n :| 0 <= n <= |prompts| && Completes(steps, k, prompts, n) {
      var at := EarliestOf(steps, k, prompts, n);
    }
    if at :| |at| == |steps| && IsEarliest(steps, prompts, at, k) {
      EarliestCompletes(steps, k, prompts, at);
    }
  }

  lemma {:induction false} EarliestOf(steps: seq<Step>, k: nat, prompts: seq<string>, n: nat) returns (at: seq<nat>)
    requires k > 0 && n <= |prompts| && Completes(steps, k, prompts, n)
    ensures |at| == |steps| && IsEarliest(steps, prompts, at, k)
  {
    hide Greedy, Matches, IsStuck, IsNextMatch, AreMoves, From;
    at := MovesOf(steps, prompts, n);
    forall i: nat | i < |at| ensures EarliestAt(steps, prompts, at, k, i) {
      MovesAreMatches(steps, prompts, at, i);
      if From(at, i) + k <= at[i] {
        IdleTooLong(steps, k, prompts, at, i);
      }
    }
  }

  lemma {:induction false} EarliestCompletes(steps: seq<Step>, k: nat, prompts: seq<string>, at: seq<nat>)
    requires k > 0 && |at| == |steps| > 0 && IsEarliest(steps, prompts, at, k)
    ensures at[|at| - 1] < |prompts| && Completes(steps, k, prompts, at[|at| - 1] + 1)
  {
    hide Greedy, Matches, Over, IsEarliest;
    forall i: nat | i < |at| ensures MovesAt(steps, prompts, i, at[i]) { MatchMoves(steps, prompts, at, k, i); }
    var n := at[|at| - 1] + 1;
    assert MovesAt(steps, prompts, |at| - 1, at[|at| - 1]);
    forall m | 0 <= m < n ensures !Over(steps, k, prompts[..m]) { NeverIdle(steps, k, prompts, at, m); }
  }

  /** What the streak says: it has reached `n` exactly when the last `n` prompts moved nothing. */
  lemma {:induction false} StreakDecides(steps: seq<Step>, prompts: seq<string>, streak: nat, n: nat)
    requires streak <= |prompts| && n > 0
    requires Greedy(steps, prompts[..|prompts| - streak]) == Greedy(steps, prompts)
    requires streak < |prompts| ==> Greedy(steps, prompts[..|prompts| - streak - 1]) < Greedy(steps, prompts)
    ensures n <= streak <==> n <= |prompts| && Greedy(steps, prompts[..|prompts| - n]) == Greedy(steps, prompts)
  {
    hide Greedy;
    assert prompts[..|prompts|] == prompts;
    if n <= streak {
      GreedyGrows(steps, prompts, |prompts| - streak, |prompts| - n);
      GreedyGrows(steps, prompts, |prompts| - n, |prompts|);
    } else if n <= |prompts| {
      GreedyGrows(steps, prompts, |prompts| - n, |prompts| - streak - 1);
    }
  }

  lemma {:induction false} GreedyStep(steps: seq<Step>, prompts: seq<string>, n: nat)
    requires n + 1 == |prompts|
    ensures var c := Greedy(steps, prompts[..n]);
            Greedy(steps, prompts) == if c < |steps| && Matches(steps[c], prompts[n]) then c + 1 else c
  {
  }

  // ---------------------------------------------------------------- what is put out

  function ActionFrames(a: Action): seq<Frame> {
    match a
    case Dtmf(digits) => [OutputDtmf(digits)]
    case Say(reply) => [TtsSpeak(reply)]
    case Wait => []
  }

  function Actions(steps: seq<Step>): seq<Frame> {
    if steps == [] then [] else Actions(steps[..|steps| - 1]) + ActionFrames(steps[|steps| - 1].action)
  }

  lemma {:induction false} ActionsStep(steps: seq<Step>, n: nat)
    requires n < |steps|
    ensures Actions(steps[..n + 1]) == Actions(steps[..n]) + ActionFrames(steps[n].action)
  {
    assert steps[..n + 1][..n] == steps[..n];
  }

  lemma {:induction false} ActionsCarryNoStatus(steps: seq<Step>, f: Frame)
    requires f in Actions(steps)
    ensures !f.StatusChanged?
  {
    if f !in ActionFrames(steps[|steps| - 1].action) {
      ActionsCarryNoStatus(steps[..|steps| - 1], f);
    }
  }

  /** The actions that can be read back from what was put out. */
  function Doings(frames: seq<Frame>): seq<Action> {
    if frames == [] then []
    else
      var last := frames[|frames| - 1];
      Doings(frames[..|frames| - 1])
      + if last.OutputDtmf? then [Dtmf(last.digits)] else if last.TtsSpeak? then [Say(last.text)] else []
  }

  /** The actions of a script that are to be seen: all but the waits, in the order of the script. */
  function Doable(steps: seq<Step>): seq<Action> {
    if steps == [] then []
    else
      var last := steps[|steps| - 1].action;
      Doable(steps[..|steps| - 1]) + if last.Wait? then [] else [last]
  }

  lemma {:induction false} DoingsOfMore(frames: seq<Frame>, f: Frame)
    ensures Doings(frames + [f]) == Doings(frames) + if f.OutputDtmf? then [Dtmf(f.digits)]
                                                     else if f.TtsSpeak? then [Say(f.text)] else []
  {
    assert (frames + [f])[..|frames|] == frames;
  }

  /** What the steps put out reads back as their actions, every digit and every reply in place. */
  lemma {:induction false} ActionsReadBack(steps: seq<Step>)
    ensures Doings(Actions(steps)) == Doable(steps)
  {
    if steps != [] {
      var front, last := steps[..|steps| - 1], steps[|steps| - 1].action;
      ActionsReadBack(front);
      match last {
        case Dtmf(digits) => DoingsOfMore(Actions(front), OutputDtmf(digits));
        case Say(reply) => DoingsOfMore(Actions(front), TtsSpeak(reply));
        case Wait => assert Actions(steps) == Actions(front);
      }
    }
  }

  class Navigator {
    const steps: seq<Step>
    const stuckAfter: nat
    const lower: string -> string
    var cursor: nat
    var unmatchedStreak: nat
    var finished: bool
    /** The prompts heard, lower-cased; how many of them were acted on; the frames put out besides the
        forwarded ones. */
    ghost var heard: seq<string>
    ghost var acted: nat
    ghost var emitted: seq<Frame>

    /** The streak is the number of prompts since the cursor last moved. */
    ghost predicate StreakIsExact()
      reads this`cursor, this`unmatchedStreak, this`heard
    {
      && unmatchedStreak <= |heard|
      && Greedy(steps, heard[..|heard| - unmatchedStreak]) == cursor
      && (unmatchedStreak < |heard| ==> Greedy(steps, heard[..|heard| - unmatchedStreak - 1]) < cursor)
    }

    /** The run acts on the prompts up to the first list that is over, and on none after it. */
    ghost predicate Valid()
      reads this
    {
      && acted <= |heard|
      && (forall n :: 0 <= n < acted ==> !Over(steps, stuckAfter, heard[..n]))
      && (finished <==> Over(steps, stuckAfter, heard[..acted]))
      && (!finished ==> acted == |heard| && StreakIsExact())
      && cursor == Greedy(steps, heard[..acted])
      && emitted == Actions(steps[..cursor])
                    + (if !finished then []
                       else if IsComplete(steps, heard[..acted]) then [StatusChanged(Completed)]
                       else [StatusChanged(Stuck)])
    }

    /** In every state, the keys pressed and the replies given are those of the steps behind the cursor. */
    lemma EmittedFollowsScript()
      requires Valid()
      ensures cursor <= |steps| && Doings(emitted) == Doable(steps[..cursor])
    {
      ActionsReadBack(steps[..cursor]);
      hide Over, Greedy, Matches;
      if finished {
        DoingsOfMore(Actions(steps[..cursor]), emitted[|emitted| - 1]);
      } else {
        assert emitted == Actions(steps[..cursor]);
      }
    }

    constructor (steps: seq<Step>, stuckAfter: nat, lower: string -> string)
      ensures Valid() && heard == [] && emitted == []
      ensures this.steps == steps && this.stuckAfter == stuckAfter && this.lower == lower
    {
      this.steps, this.stuckAfter, this.lower := steps, stuckAfter, lower;
      cursor, unmatchedStreak, finished := 0, 0, false;
      heard, acted, emitted := [], 0, [];
    }

    /** `matches`: some trigger occurs in the prompt. */
    method StepMatches(s: Step, prompt: string) returns (b: bool)
      ensures b <==> Matches(s, prompt)
      ensures b <==> exists t, at: nat :: t in s.triggers && OccursAt(prompt, t, at)
    {
      MatchesIff(s, prompt);
      hide OccursAt, Find;
      for i := 0 to |s.triggers|
        invariant forall j :: 0 <= j < i ==> !Contains(prompt, s.triggers[j])
      {
        if Contains(prompt, s.triggers[i]) {
          assert s.triggers[i] in s.triggers;
          return true;
        }
      }
      return false;
    }

    /** `process_frame`: the frame itself, then what the script adds. */
    method ProcessFrame(frame: Frame) returns (out: seq<Frame>)
      requires Valid()
      modifies this
      ensures Valid()
      ensures out != [] && out[0] == frame && emitted == old(emitted) + out[1..]
      ensures !frame.Transcription?
              ==> heard == old(heard) && cursor == old(cursor) && finished == old(finished) && |out| == 1
      ensures frame.Transcription? ==> heard == old(heard) + [lower(frame.text)]
      ensures old(finished) ==> finished && cursor == old(cursor) && |out| == 1
      ensures frame.Transcription? && !old(finished)
              && old(cursor) < |steps| && Matches(steps[old(cursor)], lower(frame.text)) ==>
                && cursor == old(cursor) + 1 && (finished <==> cursor == |steps|)
                && out[1..] == (match steps[old(cursor)].action
                                case Dtmf(digits) => [OutputDtmf(digits)]
                                case Say(reply) => [TtsSpeak(reply)]
                                case Wait => []) + (if finished then [StatusChanged(Completed)] else [])
      ensures frame.Transcription? && !old(finished)
              && !(old(cursor) < |steps| && Matches(steps[old(cursor)], lower(frame.text))) ==>
                && cursor == old(cursor)
                && (finished <==> 0 < stuckAfter <= old(unmatchedStreak) + 1)
                && out[1..] == if finished then [StatusChanged(Stuck)] else []
    {
      out := [frame];
      if !frame.Transcription? {
        return;
      }
      var prompt := lower(frame.text);
      ghost var before := heard;
      heard := heard + [prompt];
      if finished {
        assert forall n :: 0 <= n <= acted ==> heard[..n] == before[..n];
        return;
      }
      assert before[..acted] == before;
      Hear(prompt);
      var extra := Act(prompt);
      out := out + extra;
    }

    /** A prompt not yet acted on stands at the end of `heard`. */
    ghost predicate Pending(prompt: string)
      reads this
    {
      && !finished && |heard| == acted + 1 && heard[acted] == prompt
      && (forall n :: 0 <= n <= acted ==> !Over(steps, stuckAfter, heard[..n]))
      && cursor == Greedy(steps, heard[..acted])
      && emitted == Actions(steps[..cursor])
      && unmatchedStreak <= acted
      && Greedy(steps, heard[..acted - unmatchedStreak]) == cursor
      && (unmatchedStreak < acted ==> Greedy(steps, heard[..acted - unmatchedStreak - 1]) < cursor)
    }

    twostate lemma Hear(prompt: string)
      requires old(Valid()) && !old(finished)
      requires heard == old(heard) + [prompt]
      requires acted == old(acted) && cursor == old(cursor) && unmatchedStreak == old(unmatchedStreak)
      requires finished == old(finished) && emitted == old(emitted)
      ensures Pending(prompt)
    {
      assert forall n :: 0 <= n <= acted ==> heard[..n] == old(heard)[..n];
    }

    /** The script's answer to one prompt. */
    method Act(prompt: string) returns (extra: seq<Frame>)
      requires Pending(prompt)
      modifies this`cursor, this`unmatchedStreak, this`finished, this`acted, this`emitted
      ensures Valid() && acted == |heard|
      ensures emitted == old(emitted) + extra
      ensures old(cursor) < |steps| && Matches(steps[old(cursor)], prompt) ==>
                && cursor == old(cursor) + 1 && (finished <==> cursor == |steps|)
                && extra == (match steps[old(cursor)].action
                             case Dtmf(digits) => [OutputDtmf(digits)]
                             case Say(reply) => [TtsSpeak(reply)]
                             case Wait => []) + (if finished then [StatusChanged(Completed)] else [])
      ensures !(old(cursor) < |steps| && Matches(steps[old(cursor)], prompt)) ==>
                && cursor == old(cursor)
                && (finished <==> 0 < stuckAfter <= old(unmatchedStreak) + 1)
                && extra == if finished then [StatusChanged(Stuck)] else []
    {
      hide Matches, Pending, Valid;
      var matched := false;
      CursorInScript(prompt);
      if cursor < |steps| {
        matched := StepMatches(steps[cursor], prompt);
      }
      if matched {
        extra := Advance(prompt);
      } else {
        extra := Miss(prompt);
      }
    }

    lemma CursorInScript(prompt: string)
      requires Pending(prompt)
      ensures cursor <= |steps|
    {
    }

    /** The prompt matches the step at the cursor. */
    method Advance(prompt: string) returns (extra: seq<Frame>)
      requires Pending(prompt) && cursor < |steps| && Matches(steps[cursor], prompt)
      modifies this`cursor, this`unmatchedStreak, this`finished, this`acted, this`emitted
      ensures Valid() && acted == |heard|
      ensures emitted == old(emitted) + extra
      ensures cursor == old(cursor) + 1 && (finished <==> cursor == |steps|)
      ensures extra == ActionFrames(steps[old(cursor)].action) + (if finished then [StatusChanged(Completed)] else [])
    {
      hide Greedy, Matches, Actions, ActionFrames;
      assert heard[..|heard|] == heard;
      GreedyStep(steps, heard, acted);
      acted := |heard|;
      unmatchedStreak := 0;
      extra := ActionFrames(steps[cursor].action);
      ActionsStep(steps, cursor);
      cursor := cursor + 1;
      emitted := emitted + extra;
      if cursor >= |steps| {
        finished := true;
        extra := extra + [StatusChanged(Completed)];
        emitted := emitted + [StatusChanged(Completed)];
      }
      if stuckAfter > 0 {
        StreakDecides(steps, heard, 0, stuckAfter);
      }
    }

    /** There is no step at the cursor, or the prompt does not match it. */
    method Miss(prompt: string) returns (extra: seq<Frame>)
      requires Pending(prompt) && (cursor < |steps| ==> !Matches(steps[cursor], prompt))
      modifies this`unmatchedStreak, this`finished, this`acted, this`emitted
      ensures Valid() && acted == |heard|
      ensures emitted == old(emitted) + extra
      ensures finished <==> 0 < stuckAfter <= old(unmatchedStreak) + 1
      ensures extra == if finished then [StatusChanged(Stuck)] else []
    {
      hide Greedy, Matches, Actions, ActionFrames;
      assert heard[..|heard|] == heard;
      GreedyStep(steps, heard, acted);
      acted := |heard|;
      unmatchedStreak := unmatchedStreak + 1;
      extra := [];
      if stuckAfter > 0 {
        StreakDecides(steps, heard, unmatchedStreak, stuckAfter);
        if unmatchedStreak >= stuckAfter {
          finished := true;
          extra := [StatusChanged(Stuck)];
          emitted := emitted + extra;
        }
      }
    }
  }
}
