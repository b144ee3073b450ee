/**
 The delimiter-pair aggregator (`PatternPairAggregator` of
 flowcat-core/src/agent/text_filter.rs): complete pairs are rewritten in the buffer, sentences
 are split off only while no pair is open.
 */
module Patterns {
  import opened Text
  import opened Sentences
  import opened Tags

  datatype MatchAction = Remove | Keep | Aggregate

  datatype Pattern = Pattern(id: string, start: string, end: string, action: MatchAction)

  datatype PatternMatch = PatternMatch(id: string, content: string)

  // ---------------------------------------------------------------- subsequences

  /** `u` can be had from `v` by deleting characters. */
  predicate Subsequence(u: string, v: string)
    decreases |v|
  {
    u == "" || (v != "" && ((u[0] == v[0] && Subsequence(u[1..], v[1..])) || Subsequence(u, v[1..])))
  }

  lemma {:induction false} SubsequenceRefl(u: string)
    ensures Subsequence(u, u)
  {
    if u != "" {
      SubsequenceRefl(u[1..]);
    }
  }

  lemma {:induction false} SubsequenceConcat(a: string, b: string, c: string, d: string)
    requires Subsequence(a, b) && Subsequence(c, d)
    ensures Subsequence(a + c, b + d)
    decreases |b|
  {
    if b == "" {
      assert a + c == c && b + d == d;
    } else {
      assert (b + d)[1..] == b[1..] + d;
      if a == "" {
        assert a + c == c;
        SubsequenceConcat("", b[1..], c, d);
        if c != "" { assert Subsequence(c, (b + d)[1..]); }
      } else if a[0] == b[0] && Subsequence(a[1..], b[1..]) {
        SubsequenceConcat(a[1..], b[1..], c, d);
        assert (a + c)[1..] == a[1..] + c;
      } else {
        SubsequenceConcat(a, b[1..], c, d);
      }
    }
  }

  lemma {:induction false} SubsequenceTrans(a: string, b: string, c: string)
    requires Subsequence(a, b) && Subsequence(b, c)
    ensures Subsequence(a, c)
    decreases |c|
  {
    if a != "" {
      if b[0] == c[0] && Subsequence(b[1..], c[1..]) {
        if a[0] == b[0] && Subsequence(a[1..], b[1..]) {
          SubsequenceTrans(a[1..], b[1..], c[1..]);
        } else {
          SubsequenceTrans(a, b[1..], c[1..]);
        }
      } else {
        SubsequenceTrans(a, b, c[1..]);
      }
    }
  }

  /** A slice of a text is a subsequence of it. */
  lemma {:induction false} SliceIsSubsequence(t: string, i: nat, j: nat)
    requires i <= j <= |t|
    ensures Subsequence(t[i..j], t)
  {
    SubsequenceRefl(t[i..j]);
    assert Subsequence("", t[..i]) && Subsequence("", t[j..]);
    SubsequenceConcat("", t[..i], t[i..j], t[i..j]);
    assert "" + t[i..j] == t[i..j];
    SubsequenceConcat(t[i..j], t[..i] + t[i..j], "", t[j..]);
    assert t[i..j] + "" == t[i..j] && t[..i] + t[i..j] + t[j..] == t;
  }

  lemma {:induction false} TrimIsSubsequence(t: string)
    ensures Subsequence(Trim(t), t)
  {
    var i, j := TrimIs(t);
    SliceIsSubsequence(t, i, j);
  }

  // ---------------------------------------------------------------- rewriting

  /** The first start delimiter and the first end delimiter after it. */
  function Region(p: Pattern, t: string): (r: Option<(nat, nat)>)
    ensures r.Some? ==> r.value.0 + |p.start| <= r.value.1 && r.value.1 + |p.end| <= |t|
  {
    match Find(t, p.start, 0)
    case None => None
    case Some(s) =>
      match Find(t, p.end, s + |p.start|)
      case None => None
      case Some(e) => Some((s, e))
  }

  /** What stands between the delimiters. */
  function Inner(p: Pattern, t: string): string
    requires Region(p, t).Some?
  {
    var (s, e) := Region(p, t).value;
    t[s + |p.start|..e]
  }

  /** `t` with the whole region replaced by `kept`. */
  function Replaced(p: Pattern, t: string, kept: string): string
    requires Region(p, t).Some?
  {
    var (s, e) := Region(p, t).value;
    t[..s] + kept + t[e + |p.end|..]
  }

  /** The first pattern, from number `i` on, with a complete region. */
  function FirstComplete(patterns: seq<Pattern>, t: string, i: nat): (r: Option<nat>)
    requires i <= |patterns|
    ensures r.Some? ==> r.value < |patterns| && Region(patterns[r.value], t).Some?
    decreases |patterns| - i
  {
    if i == |patterns| then None
    else if Region(patterns[i], t).Some? then Some(i)
    else FirstComplete(patterns, t, i + 1)
  }

  predicate HasNoDelimiters(p: Pattern) {
    p.start == "" && p.end == ""
  }

  /** What the recursion needs to end: before a removing pattern without delimiters stands another
      pattern without them. */
  predicate Sound(patterns: seq<Pattern>) {
    forall i :: 0 <= i < |patterns| && patterns[i].action.Remove? && HasNoDelimiters(patterns[i]) ==>
      exists j :: 0 <= j < i && HasNoDelimiters(patterns[j])
  }

  lemma {:induction false} FirstCompleteIsFirst(patterns: seq<Pattern>, t: string, i: nat)
    requires i <= |patterns|
    ensures var r := FirstComplete(patterns, t, i);
            forall j :: i <= j < |patterns| && (r.Some? ==> j < r.value) ==> Region(patterns[j], t).None?
    decreases |patterns| - i
  {
    if i < |patterns| && Region(patterns[i], t).None? {
      FirstCompleteIsFirst(patterns, t, i + 1);
    }
  }

  lemma {:induction false} RemovalShrinks(p: Pattern, t: string)
    requires Region(p, t).Some? && (p.start != "" || p.end != "")
    ensures |Replaced(p, t, "")| < |t|
  {
  }

  /** The first pattern without delimiters is complete in every text, so no removal behind it is chosen. */
  lemma {:induction false} ChosenShrinks(patterns: seq<Pattern>, t: string, k: nat)
    requires Sound(patterns) && FirstComplete(patterns, t, 0) == Some(k) && patterns[k].action.Remove?
    ensures Region(patterns[k], t).Some? && |Replaced(patterns[k], t, "")| < |t|
  {
    FirstCompleteIsFirst(patterns, t, 0);
    forall j | 0 <= j < k ensures !HasNoDelimiters(patterns[j]) {
      if HasNoDelimiters(patterns[j]) { EmptyDelimitersRemoveNothing(patterns[j], t); }
    }
    RemovalShrinks(patterns[k], t);
  }

  function Process(patterns: seq<Pattern>, t: string): (string, Option<PatternMatch>)
    requires Sound(patterns)
    decreases |t|
  {
    match FirstComplete(patterns, t, 0)
    case None => (t, None)
    case Some(k) =>
      var p := patterns[k];
      match p.action
      case Remove => ChosenShrinks(patterns, t, k); Process(patterns, Replaced(p, t, ""))
      case Keep => (Replaced(p, t, Trim(Inner(p, t))), None)
      case Aggregate => (Replaced(p, t, ""), Some(PatternMatch(p.id, Trim(Inner(p, t)))))
  }

  /** `Region` by the two searches, and the replacement it gives. */
  lemma {:induction false} RegionIs(p: Pattern, t: string)
    ensures var s := Find(t, p.start, 0);
            && (s.None? ==> Region(p, t).None?)
            && (s.Some? ==>
                  && s.value + |p.start| <= |t|
                  && var e := Find(t, p.end, s.value + |p.start|);
                     && (e.None? ==> Region(p, t).None?)
                     && (e.Some? ==>
                           && s.value + |p.start| <= e.value && e.value + |p.end| <= |t|
                           && Region(p, t) == Some((s.value, e.value))
                           && Inner(p, t) == t[s.value + |p.start|..e.value]
                           && Replaced(p, t, "") == t[..s.value] + t[e.value + |p.end|..]
                           && Replaced(p, t, Trim(Inner(p, t)))
                                == t[..s.value] + Trim(Inner(p, t)) + t[e.value + |p.end|..]))
  {
    hide Find, Trim;
    assert forall a: string, b: string :: a + "" + b == a + b;
  }

  lemma {:induction false} FirstCompleteFrom(patterns: seq<Pattern>, t: string, i: nat)
    requires i <= |patterns|
    ensures FirstComplete(patterns, t, i) ==
            if i == |patterns| then None
            else if Region(patterns[i], t).Some? then Some(i)
            else FirstComplete(patterns, t, i + 1)
  {
  }

  lemma {:induction false} ProcessNone(patterns: seq<Pattern>, t: string)
    requires Sound(patterns) && FirstComplete(patterns, t, 0).None?
    ensures Process(patterns, t) == (t, None)
  {
  }

  lemma {:induction false} ProcessAt(patterns: seq<Pattern>, t: string, k: nat)
    requires Sound(patterns) && k < |patterns| && FirstComplete(patterns, t, 0) == Some(k)
    ensures Region(patterns[k], t).Some?
    ensures var p := patterns[k];
            && (p.action.Remove? ==>
                  |Replaced(p, t, "")| < |t| && Process(patterns, t) == Process(patterns, Replaced(p, t, "")))
            && (p.action.Keep? ==> Process(patterns, t) == (Replaced(p, t, Trim(Inner(p, t))), None))
            && (p.action.Aggregate? ==>
                  Process(patterns, t) == (Replaced(p, t, ""), Some(PatternMatch(p.id, Trim(Inner(p, t))))))
  {
    if patterns[k].action.Remove? { ChosenShrinks(patterns, t, k); }
    hide Region, FirstComplete, Replaced, Inner, Trim;
  }

  /** A removal without delimiters leaves the text as it was. */
  lemma {:induction false} EmptyDelimitersRemoveNothing(p: Pattern, t: string)
    requires HasNoDelimiters(p)
    ensures Region(p, t) == Some((0, 0)) && Replaced(p, t, "") == t
  {
    assert OccursAt(t, "", 0);
  }

  /** In the empty text only patterns without delimiters are complete. */
  lemma {:induction false} CompleteInEmpty(p: Pattern)
    ensures Region(p, "").Some? <==> HasNoDelimiters(p)
  {
    if HasNoDelimiters(p) { EmptyDelimitersRemoveNothing(p, ""); }
  }

  /** A pattern without delimiters is reached for some text exactly when it is the first of its kind. */
  lemma {:induction false} ReachedIff(patterns: seq<Pattern>, k: nat)
    requires k < |patterns| && HasNoDelimiters(patterns[k])
    ensures (exists t :: FirstComplete(patterns, t, 0) == Some(k))
            <==> forall j :: 0 <= j < k ==> !HasNoDelimiters(patterns[j])
  {
    hide Region;
    if t :| FirstComplete(patterns, t, 0) == Some(k) {
      FirstCompleteIsFirst(patterns, t, 0);
      forall j | 0 <= j < k ensures !HasNoDelimiters(patterns[j]) {
        if HasNoDelimiters(patterns[j]) { EmptyDelimitersRemoveNothing(patterns[j], t); }
      }
    }
    if forall j :: 0 <= j < k ==> !HasNoDelimiters(patterns[j]) {
      forall j | 0 <= j <= k ensures Region(patterns[j], "").Some? <==> j == k { CompleteInEmpty(patterns[j]); }
      FirstCompleteIsFirst(patterns, "", 0);
      assert Region(patterns[k], "").Some?;
      assert FirstComplete(patterns, "", 0) == Some(k);
    }
  }

  /** The recursion of `process_complete_patterns` ends after at most `n` removals. */
  ghost predicate EndsWithin(patterns: seq<Pattern>, t: string, n: nat)
    decreases n
  {
    match FirstComplete(patterns, t, 0)
    case None => true
    case Some(k) => !patterns[k].action.Remove? || (n > 0 && EndsWithin(patterns, Replaced(patterns[k], t, ""), n - 1))
  }

  ghost predicate Ends(patterns: seq<Pattern>, t: string) {
    exists n :: EndsWithin(patterns, t, n)
  }

  lemma {:induction false} SoundEnds(patterns: seq<Pattern>, t: string, n: nat)
    requires Sound(patterns) && |t| <= n
    ensures EndsWithin(patterns, t, n)
    decreases n
  {
    match FirstComplete(patterns, t, 0)
    case None =>
    case Some(k) =>
      if patterns[k].action.Remove? {
        ChosenShrinks(patterns, t, k);
        SoundEnds(patterns, Replaced(patterns[k], t, ""), n - 1);
      }
  }

  lemma {:induction false} UnsoundLoops(patterns: seq<Pattern>, t: string, k: nat, n: nat)
    requires FirstComplete(patterns, t, 0) == Some(k) && patterns[k].action.Remove? && HasNoDelimiters(patterns[k])
    ensures !EndsWithin(patterns, t, n)
    decreases n
  {
    EmptyDelimitersRemoveNothing(patterns[k], t);
    if n > 0 {
      UnsoundLoops(patterns, t, k, n - 1);
    }
  }

  /** The recursion ends on every text exactly when the patterns are sound. */
  lemma {:induction false} EndsIffSound(patterns: seq<Pattern>)
    ensures (forall t :: Ends(patterns, t)) <==> Sound(patterns)
  {
    hide EndsWithin;
    if Sound(patterns) {
      forall t ensures Ends(patterns, t) { SoundEnds(patterns, t, |t|); }
    } else {
      var k := FirstUnsound(patterns);
      ReachedIff(patterns, k);
      var t :| FirstComplete(patterns, t, 0) == Some(k);
      forall n: nat ensures !EndsWithin(patterns, t, n) { UnsoundLoops(patterns, t, k, n); }
      assert !Ends(patterns, t);
    }
  }

  lemma {:induction false} FirstUnsound(patterns: seq<Pattern>) returns (k: nat)
    requires !Sound(patterns)
    ensures k < |patterns| && patterns[k].action.Remove? && HasNoDelimiters(patterns[k])
    ensures forall j :: 0 <= j < k ==> !HasNoDelimiters(patterns[j])
  {
    k :| k < |patterns| && patterns[k].action.Remove? && HasNoDelimiters(patterns[k])
         && !exists j :: 0 <= j < k && HasNoDelimiters(patterns[j]);
  }

  /** No pattern is complete in `t`. */
  predicate Clean(patterns: seq<Pattern>, t: string) {
    forall i :: 0 <= i < |patterns| ==> Region(patterns[i], t).None?
  }

  lemma {:induction false} NoFirstComplete(patterns: seq<Pattern>, t: string, i: nat)
    requires i <= |patterns| && FirstComplete(patterns, t, i).None?
    ensures forall j :: i <= j < |patterns| ==> Region(patterns[j], t).None?
    decreases |patterns| - i
  {
    if i < |patterns| {
      NoFirstComplete(patterns, t, i + 1);
    }
  }

  predicate OnlyRemoves(patterns: seq<Pattern>) {
    forall i :: 0 <= i < |patterns| ==> patterns[i].action.Remove?
  }

  /** With removing patterns only, nothing complete is left and nothing is surfaced. */
  lemma {:induction false} RemovalCleans(patterns: seq<Pattern>, t: string)
    requires Sound(patterns) && OnlyRemoves(patterns)
    ensures Clean(patterns, Process(patterns, t).0) && Process(patterns, t).1 == None
    decreases |t|
  {
    hide Process, Region, Replaced, FirstComplete;
    match FirstComplete(patterns, t, 0)
    case None =>
      ProcessNone(patterns, t);
      NoFirstComplete(patterns, t, 0);
    case Some(k) =>
      ProcessAt(patterns, t, k);
      RemovalCleans(patterns, Replaced(patterns[k], t, ""));
  }

  lemma {:induction false} NothingIsSubsequence(t: string)
    ensures Subsequence("", t)
  {
  }

  lemma {:induction false} KeepPart(a: string, from: string, inner: string, to: string, b: string, kept: string)
    requires Subsequence(kept, inner)
    ensures Subsequence(a + kept + b, a + (from + inner + to) + b)
  {
    SubsequenceRefl(a);
    SubsequenceRefl(b);
    assert Subsequence("", from) && Subsequence("", to);
    hide Subsequence;
    SubsequenceConcat("", from, kept, inner);
    assert "" + kept == kept;
    SubsequenceConcat(kept, from + inner, "", to);
    assert kept + "" == kept;
    SubsequenceConcat(a, a, kept, from + inner + to);
    SubsequenceConcat(a + kept, a + (from + inner + to), b, b);
  }

  lemma {:induction false} ReplacedIsSubsequence(p: Pattern, t: string, kept: string)
    requires Region(p, t).Some? && Subsequence(kept, Inner(p, t))
    ensures Subsequence(Replaced(p, t, kept), t)
  {
    var (s, e) := Region(p, t).value;
    hide Subsequence, Find, Region;
    KeepPart(t[..s], t[s..s + |p.start|], Inner(p, t), t[e..e + |p.end|], t[e + |p.end|..], kept);
    FiveParts(t, s, s + |p.start|, e, e + |p.end|);
  }

  lemma {:induction false} FiveParts(t: string, i: nat, j: nat, k: nat, l: nat)
    requires i <= j <= k <= l <= |t|
    ensures t[..i] + (t[i..j] + t[j..k] + t[k..l]) + t[l..] == t
  {
    assert t[i..j] + t[j..k] + t[k..l] == t[i..l];
  }

  /** Rewriting only deletes characters, whatever the actions. */
  lemma {:induction false} ProcessIsSubsequence(patterns: seq<Pattern>, t: string)
    requires Sound(patterns)
    ensures Subsequence(Process(patterns, t).0, t)
    decreases |t|
  {
    hide Process, Region, Replaced, FirstComplete, Inner, Trim, Subsequence;
    match FirstComplete(patterns, t, 0)
    case None =>
      ProcessNone(patterns, t);
      SubsequenceRefl(t);
    case Some(k) =>
      var p := patterns[k];
      ProcessAt(patterns, t, k);
      NothingIsSubsequence(Inner(p, t));
      match p.action
      case Remove =>
        ReplacedIsSubsequence(p, t, "");
        ProcessIsSubsequence(patterns, Replaced(p, t, ""));
        SubsequenceTrans(Process(patterns, t).0, Replaced(p, t, ""), t);
      case Keep =>
        TrimIsSubsequence(Inner(p, t));
        ReplacedIsSubsequence(p, t, Trim(Inner(p, t)));
      case Aggregate =>
        ReplacedIsSubsequence(p, t, "");
  }

  /** A surfaced match is the trimmed inside of an aggregating pattern's region, which is gone. */
  lemma {:induction false} SurfacedMatch(patterns: seq<Pattern>, t: string) returns (p: Pattern, u: string)
    requires Sound(patterns) && Process(patterns, t).1.Some?
    ensures p in patterns && p.action.Aggregate? && Region(p, u).Some? && Subsequence(u, t)
    ensures Process(patterns, t) == (Replaced(p, u, ""), Some(PatternMatch(p.id, Trim(Inner(p, u)))))
    decreases |t|
  {
    var k := FirstComplete(patterns, t, 0).value;
    p, u := patterns[k], t;
    SubsequenceRefl(t);
    ProcessAt(patterns, t, k);
    NothingIsSubsequence(Inner(p, t));
    if p.action.Remove? {
      var shorter := Replaced(p, t, "");
      ReplacedIsSubsequence(p, t, "");
      p, u := SurfacedMatch(patterns, shorter);
      SubsequenceTrans(u, shorter, t);
    }
  }

  /** Any part of a clean text is clean. */
  lemma {:induction false} PartOfClean(patterns: seq<Pattern>, t: string, i: nat, j: nat)
    requires Clean(patterns, t) && i <= j <= |t|
    ensures Clean(patterns, t[i..j])
  {
    forall k | 0 <= k < |patterns| ensures Region(patterns[k], t[i..j]).None? {
      PartHasNoRegion(patterns[k], t, i, j);
    }
  }

  lemma {:induction false} PartHasNoRegion(p: Pattern, t: string, i: nat, j: nat)
    requires Region(p, t).None? && i <= j <= |t|
    ensures Region(p, t[i..j]).None?
  {
    hide Find, Region, OccursAt;
    if Region(p, t[i..j]).Some? {
      var at := RegionStands(p, t[i..j]);
      OccursInWhole(t, i, j, p.start, at.0);
      OccursInWhole(t, i, j, p.end, at.1);
      HasRegion(p, t, i + at.0, i + at.1);
    }
  }

  lemma {:induction false} OccursInWhole(t: string, i: nat, j: nat, q: string, at: nat)
    requires i <= j <= |t| && OccursAt(t[i..j], q, at)
    ensures OccursAt(t, q, i + at)
  {
    var part := t[i..j];
    assert |part| == j - i && at + |q| <= |part|;
    assert forall k :: 0 <= k < |q| ==> q[k] == part[at..at + |q|][k] == part[at + k] == t[i + at + k];
    assert t[i + at..i + at + |q|] == q;
  }

  lemma {:induction false} RegionStands(p: Pattern, t: string) returns (at: (nat, nat))
    requires Region(p, t).Some?
    ensures at == Region(p, t).value && OccursAt(t, p.start, at.0)
            && at.0 + |p.start| <= at.1 && OccursAt(t, p.end, at.1)
  {
    at := Region(p, t).value;
  }

  lemma {:induction false} HasRegion(p: Pattern, t: string, s: nat, e: nat)
    requires OccursAt(t, p.start, s) && s + |p.start| <= e && OccursAt(t, p.end, e)
    ensures Region(p, t).Some?
  {
    hide Find;
    FindIsFirst(t, p.start, 0);
    var first := Find(t, p.start, 0);
    assert first.Some? && first.value <= s;
    FindIsFirst(t, p.end, first.value + |p.start|);
  }

  // ---------------------------------------------------------------- whole runs

  /** Sentences as split off, untrimmed, and surfaced matches, in order. */
  datatype Emitted = Sentence(slice: string) | Surfaced(found: PatternMatch)

  datatype PairState = PairState(text: string, waiting: bool, emitted: seq<Emitted>)

  predicate Incomplete(patterns: seq<Pattern>, t: string) {
    exists i :: 0 <= i < |patterns| && Unclosed(patterns[i].start, patterns[i].end, t)
  }

  function PairStep(patterns: seq<Pattern>, a: PairState, ch: char): PairState
    requires Sound(patterns)
  {
    var (text, found) := Process(patterns, a.text + [ch]);
    if found.Some? then PairState(text, a.waiting, a.emitted + [Surfaced(found.value)])
    else if Incomplete(patterns, text) then a.(text := text)
    else
      var r := Check(text, a.waiting, ch);
      PairState(r.text, r.waiting, if r.slice.Some? then a.emitted + [Sentence(r.slice.value)] else a.emitted)
  }

  /** The state after a whole input; `waiting` is the flag a flush may have left behind. */
  function PairRun(patterns: seq<Pattern>, waiting: bool, input: string): PairState
    requires Sound(patterns)
  {
    if input == "" then PairState("", waiting, [])
    else PairStep(patterns, PairRun(patterns, waiting, input[..|input| - 1]), input[|input| - 1])
  }

  lemma {:induction false} PairRunNext(patterns: seq<Pattern>, waiting: bool, input: string, ch: char)
    requires Sound(patterns)
    ensures PairRun(patterns, waiting, input + [ch]) == PairStep(patterns, PairRun(patterns, waiting, input), ch)
  {
    assert (input + [ch])[..|input|] == input;
  }

  lemma {:induction false} EmptyPairRun(patterns: seq<Pattern>, waiting: bool)
    requires Sound(patterns)
    ensures PairRun(patterns, waiting, "") == PairState("", waiting, [])
  {
    hide PairStep;
  }

  /** The text passed on as sentences. */
  function PassedOn(emitted: seq<Emitted>): string {
    if emitted == [] then ""
    else
      var last := emitted[|emitted| - 1];
      PassedOn(emitted[..|emitted| - 1]) + if last.Sentence? then last.slice else ""
  }

  lemma {:induction false} PassedOnNext(emitted: seq<Emitted>, e: Emitted)
    ensures PassedOn(emitted + [e]) == PassedOn(emitted) + if e.Sentence? then e.slice else ""
  {
    assert (emitted + [e])[..|emitted|] == emitted;
  }

  /** One step deletes characters, or moves a front of the buffer to the sentences, or both. */
  lemma {:induction false} PairStepPasses(patterns: seq<Pattern>, a: PairState, ch: char)
    requires Sound(patterns)
    ensures var b := PairStep(patterns, a, ch);
            PassedOn(b.emitted) + b.text == PassedOn(a.emitted) + Process(patterns, a.text + [ch]).0
  {
    var (text, found) := Process(patterns, a.text + [ch]);
    if found.Some? {
      PassedOnNext(a.emitted, Surfaced(found.value));
    } else if !Incomplete(patterns, text) {
      CheckSplits(text, a.waiting, ch);
      var r := Check(text, a.waiting, ch);
      if r.slice.Some? {
        PassedOnNext(a.emitted, Sentence(r.slice.value));
        Associates(PassedOn(a.emitted), r.slice.value, r.text);
      }
    }
  }

  /** For every run and all actions, the text passed on plus the buffer is a subsequence of the input. */
  lemma {:induction false} RunIsSubsequence(patterns: seq<Pattern>, waiting: bool, input: string)
    requires Sound(patterns)
    ensures var a := PairRun(patterns, waiting, input); Subsequence(PassedOn(a.emitted) + a.text, input)
  {
    hide PairStep, Process, Check, Subsequence;
    if input != "" {
      var before, ch := input[..|input| - 1], input[|input| - 1];
      var a := PairRun(patterns, waiting, before);
      RunIsSubsequence(patterns, waiting, before);
      PairStepPasses(patterns, a, ch);
      ProcessIsSubsequence(patterns, a.text + [ch]);
      var said, text := PassedOn(a.emitted), Process(patterns, a.text + [ch]).0;
      SubsequenceRefl(said);
      SubsequenceRefl([ch]);
      SubsequenceConcat(said, said, text, a.text + [ch]);
      SubsequenceConcat(said + a.text, before, [ch], [ch]);
      Associates(said, a.text, [ch]);
      assert before + [ch] == input;
      SubsequenceTrans(said + text, said + (a.text + [ch]), input);
    } else {
      EmptySubsequence();
      assert PassedOn([]) + "" == "";
    }
  }

  lemma {:induction false} EmptySubsequence()
    ensures Subsequence("", "")
  {
  }

  ghost predicate AllClean(patterns: seq<Pattern>, emitted: seq<Emitted>) {
    forall i :: 0 <= i < |emitted| ==> emitted[i].Sentence? && Clean(patterns, emitted[i].slice)
  }

  /** With removing patterns only, neither a sentence nor the buffer ever holds a complete pair. */
  lemma {:induction false} RunIsClean(patterns: seq<Pattern>, waiting: bool, input: string)
    requires Sound(patterns) && OnlyRemoves(patterns)
    ensures var a := PairRun(patterns, waiting, input);
            AllClean(patterns, a.emitted) && (input != "" ==> Clean(patterns, a.text))
  {
    if input != "" {
      RunIsClean(patterns, waiting, input[..|input| - 1]);
      StepIsClean(patterns, PairRun(patterns, waiting, input[..|input| - 1]), input[|input| - 1]);
    }
  }

  lemma {:induction false} StepIsClean(patterns: seq<Pattern>, a: PairState, ch: char)
    requires Sound(patterns) && OnlyRemoves(patterns) && AllClean(patterns, a.emitted)
    ensures var b := PairStep(patterns, a, ch); AllClean(patterns, b.emitted) && Clean(patterns, b.text)
  {
    hide Process, Check, Clean, Incomplete;
    RemovalCleans(patterns, a.text + [ch]);
    var text := Process(patterns, a.text + [ch]).0;
    var r := Check(text, a.waiting, ch);
    CheckSplits(text, a.waiting, ch);
    assert r.slice.None? ==> r.text == text;
    if r.slice.Some? {
      var m := |r.slice.value|;
      assert text[0..m] == r.slice.value && text[m..|text|] == r.text;
      PartOfClean(patterns, text, 0, m);
      PartOfClean(patterns, text, m, |text|);
    }
  }

  // ---------------------------------------------------------------- sentences that end inside a pair

  function Delimiters(patterns: seq<Pattern>): (tags: seq<StartEndTags>)
    ensures |tags| == |patterns|
  {
    seq(|patterns|, i requires 0 <= i < |patterns| => StartEndTags(patterns[i].start, patterns[i].end))
  }

  lemma {:induction false} IncompleteIsInside(patterns: seq<Pattern>, t: string)
    ensures Incomplete(patterns, t) <==> Inside(Delimiters(patterns), t)
  {
    hide Unclosed;
    var tags := Delimiters(patterns);
    if i :| 0 <= i < |patterns| && Unclosed(patterns[i].start, patterns[i].end, t) {
      assert Unclosed(tags[i].start, tags[i].end, t);
    }
    if i :| 0 <= i < |tags| && Unclosed(tags[i].start, tags[i].end, t) {
      assert Unclosed(patterns[i].start, patterns[i].end, t);
    }
  }

  /** Reading `ch` passes on `slice` as a sentence. */
  ghost predicate PassesOn(patterns: seq<Pattern>, a: PairState, ch: char, slice: string)
    requires Sound(patterns)
  {
    PairStep(patterns, a, ch).emitted == a.emitted + [Sentence(slice)]
  }

  /** Which sentence a character passes on, from the state before it. */
  lemma {:induction false} PassesOnIff(patterns: seq<Pattern>, a: PairState, ch: char, slice: string)
    requires Sound(patterns)
    ensures var (text, found) := Process(patterns, a.text + [ch]);
            PassesOn(patterns, a, ch, slice) <==>
              && found.None? && !Incomplete(patterns, text) && a.waiting && !IsWhitespace(ch)
              && SentenceEnd(text).Some? && slice == text[..SentenceEnd(text).value]
  {
    hide Process, Incomplete, SentenceEnd, IsWhitespace;
    var (text, found) := Process(patterns, a.text + [ch]);
    var r := Check(text, a.waiting, ch);
    if found.Some? {
      LastTells(a.emitted, Surfaced(found.value), Sentence(slice));
    } else if r.slice.Some? {
      LastTells(a.emitted, Sentence(r.slice.value), Sentence(slice));
    }
    LastTells(a.emitted, Sentence(slice), Sentence(slice));
  }

  /** A match is handed out exactly when rewriting surfaces it. */
  lemma {:induction false} SurfacesIff(patterns: seq<Pattern>, a: PairState, ch: char, m: PatternMatch)
    requires Sound(patterns)
    ensures PairStep(patterns, a, ch).emitted == a.emitted + [Surfaced(m)]
            <==> Process(patterns, a.text + [ch]).1 == Some(m)
  {
    hide Process, Incomplete, SentenceEnd, IsWhitespace;
    var (text, found) := Process(patterns, a.text + [ch]);
    var r := Check(text, a.waiting, ch);
    if found.Some? {
      LastTells(a.emitted, Surfaced(found.value), Surfaced(m));
    } else if r.slice.Some? {
      LastTells(a.emitted, Sentence(r.slice.value), Surfaced(m));
    }
    LastTells(a.emitted, Surfaced(m), Surfaced(m));
  }

  /** A character hands out one sentence, or one match, or nothing. */
  lemma {:induction false} EmitsAtMostOne(patterns: seq<Pattern>, a: PairState, ch: char)
    requires Sound(patterns)
    ensures var b := PairStep(patterns, a, ch);
            || b.emitted == a.emitted
            || (exists slice :: PassesOn(patterns, a, ch, slice))
            || (exists m :: b.emitted == a.emitted + [Surfaced(m)])
  {
    hide Process, Incomplete, Check;
    var (text, found) := Process(patterns, a.text + [ch]);
    var r := Check(text, a.waiting, ch);
    if found.Some? {
      assert PairStep(patterns, a, ch).emitted == a.emitted + [Surfaced(found.value)];
    } else if r.slice.Some? && !Incomplete(patterns, text) {
      assert PassesOn(patterns, a, ch, r.slice.value);
    }
  }

  /** What a character leaves: a match or an open pair keeps the whole rewritten buffer and the flag. */
  lemma {:induction false} StepLeaves(patterns: seq<Pattern>, a: PairState, ch: char)
    requires Sound(patterns)
    ensures var (text, found) := Process(patterns, a.text + [ch]);
            var b := PairStep(patterns, a, ch);
            var checked := found.None? && !Incomplete(patterns, text);
            && b.waiting == (if !checked then a.waiting else if a.waiting then IsWhitespace(ch) else EndsInMark(text))
            && (forall slice | PassesOn(patterns, a, ch, slice) :: slice + b.text == text)
            && ((forall slice :: !PassesOn(patterns, a, ch, slice)) ==> b.text == text)
  {
    var (text, found) := Process(patterns, a.text + [ch]);
    var r := Check(text, a.waiting, ch);
    CheckSplits(text, a.waiting, ch);
    forall slice | PassesOn(patterns, a, ch, slice)
      ensures slice + PairStep(patterns, a, ch).text == text
    {
      PassesOnIff(patterns, a, ch, slice);
    }
    if found.None? && !Incomplete(patterns, text) && r.slice.Some? {
      PassesOnIff(patterns, a, ch, r.slice.value);
      assert PassesOn(patterns, a, ch, r.slice.value);
    }
    hide Process, Incomplete, SentenceEnd, IsWhitespace, EndsInMark;
  }

  lemma {:induction false} LastTells<T>(s: seq<T>, x: T, y: T)
    ensures s + [x] == s + [y] <==> x == y
    ensures s + [x] != s
  {
    assert (s + [x])[|s|] == x && (s + [y])[|s|] == y;
  }

  /**
   When a sentence is passed on that ends in an open pair. The code means never to; it happens exactly
   when nothing is surfaced, the check is waiting, the character confirms, the counts show no open
   pair in the whole rewritten buffer, and up to its last sentence end they do show one, or one is
   masked from them there.
   */
  lemma {:induction false} PassesOnOpenPairIff(patterns: seq<Pattern>, a: PairState, ch: char)
    requires Sound(patterns)
    ensures var (text, found) := Process(patterns, a.text + [ch]);
            var tags, end := Delimiters(patterns), SentenceEnd(text);
            (exists slice :: PassesOn(patterns, a, ch, slice) && OpenAtEnd(tags, slice)) <==>
              && found.None? && !Inside(tags, text) && a.waiting && !IsWhitespace(ch)
              && end.Some? && (Inside(tags, text[..end.value]) || Masked(tags, text[..end.value]))
  {
    hide Process, Incomplete, Inside, SentenceEnd, IsWhitespace, OpenAtEnd, PassesOn, Masked;
    var text := Process(patterns, a.text + [ch]).0;
    IncompleteIsInside(patterns, text);
    if slice :| PassesOn(patterns, a, ch, slice) && OpenAtEnd(Delimiters(patterns), slice) {
      PassesOnIff(patterns, a, ch, slice);
      OpenIffInsideOrMasked(Delimiters(patterns), slice);
    }
    if SentenceEnd(text).Some? {
      PassesOnIff(patterns, a, ch, text[..SentenceEnd(text).value]);
      OpenIffInsideOrMasked(Delimiters(patterns), text[..SentenceEnd(text).value]);
    }
  }

  /** In a text without a complete region of `p`, its pair is open exactly when its start stands there
      at all: what was to be removed from there on is not. */
  lemma {:induction false} OpenIffStartStands(p: Pattern, t: string)
    requires p.start != "" && Region(p, t).None?
    ensures EndsOpen(StartEndTags(p.start, p.end), t) <==> Find(t, p.start, 0).Some?
  {
    var tag := StartEndTags(p.start, p.end);
    FindIsFirst(t, p.start, 0);
    hide Find;
    if Find(t, p.start, 0).Some? {
      LastPairOpenEndsOpen(tag, t);
    }
  }

  function AsSentences(slices: seq<string>): seq<Emitted> {
    seq(|slices|, i requires 0 <= i < |slices| => Sentence(slices[i]))
  }

  /** On an input without complete pairs nothing is rewritten: the run is that of the tag guard. */
  lemma {:induction false} CleanRunIsSkipRun(patterns: seq<Pattern>, input: string)
    requires Sound(patterns) && Clean(patterns, input)
    ensures var a, b := PairRun(patterns, false, input), SkipRun(Delimiters(patterns), input);
            a == PairState(b.text, b.waiting, AsSentences(b.slices))
  {
    hide PairStep, Clean, Inside, Check, SkipStep;
    if input == "" {
      EmptyRun(Delimiters(patterns));
    } else {
      var before, ch := input[..|input| - 1], input[|input| - 1];
      assert input == before + [ch] && before == input[0..|before|];
      PartOfClean(patterns, input, 0, |before|);
      CleanRunIsSkipRun(patterns, before);
      var b := SkipRun(Delimiters(patterns), before);
      SkipIsLossless(Delimiters(patterns), before);
      var gone := |Flatten(b.slices)|;
      assert b.text + [ch] == input[gone..|input|];
      PartOfClean(patterns, input, gone, |input|);
      CleanStepIsSkipStep(patterns, b, ch);
      FoldNext(SkipStep(Delimiters(patterns)), before, ch);
    }
  }

  lemma {:induction false} CleanStepIsSkipStep(patterns: seq<Pattern>, b: Progress, ch: char)
    requires Sound(patterns) && Clean(patterns, b.text + [ch])
    ensures var c := SkipStep(Delimiters(patterns))(b, ch);
            PairStep(patterns, PairState(b.text, b.waiting, AsSentences(b.slices)), ch)
            == PairState(c.text, c.waiting, AsSentences(c.slices))
  {
    var buffer := b.text + [ch];
    NothingComplete(patterns, buffer);
    IncompleteIsInside(patterns, buffer);
    hide Process, Incomplete, Inside, Check;
    var r := Check(buffer, b.waiting, ch);
    if r.slice.Some? {
      assert AsSentences(b.slices + [r.slice.value]) == AsSentences(b.slices) + [Sentence(r.slice.value)];
    }
  }

  lemma {:induction false} NothingComplete(patterns: seq<Pattern>, t: string)
    requires Sound(patterns) && Clean(patterns, t)
    ensures Process(patterns, t) == (t, None)
  {
    hide Region;
    ProcessNone(patterns, t);
  }

  /** Behind a stray end the start of a pair to be removed is passed on, pair and all. */
  lemma {:induction false} StrayEndPassesPairOn()
    ensures var patterns := [Pattern("note", "[", "]", Remove)];
            && Sound(patterns)
            && PairRun(patterns, false, "][a. b").emitted == [Sentence("][a.")]
            && OpenAtEnd(Delimiters(patterns), "][a.")
  {
    hide Clean, PairRun, SkipRun, Masked, OpenAtEnd, Inside, Sound;
    var patterns := [Pattern("note", "[", "]", Remove)];
    StrayEndIsClean();
    assert Delimiters(patterns) == [StartEndTags("[", "]")];
    SplitBehindStrayEnd();
    OpenIffInsideOrMasked(Delimiters(patterns), "][a.");
    OneSliceIsOneSentence(patterns, "][a. b", "][a.");
  }

  lemma {:induction false} OneSliceIsOneSentence(patterns: seq<Pattern>, input: string, slice: string)
    requires Sound(patterns) && Clean(patterns, input) && SkipRun(Delimiters(patterns), input).slices == [slice]
    ensures PairRun(patterns, false, input).emitted == [Sentence(slice)]
  {
    CleanRunIsSkipRun(patterns, input);
    assert AsSentences([slice]) == [Sentence(slice)];
  }

  /** A start that holds its end is passed on likewise, and what follows it too. */
  lemma {:induction false} FenceIsPassedOn()
    ensures var patterns := [Pattern("code", "```py", "```", Remove)];
            && Sound(patterns)
            && PairRun(patterns, false, "```py a. b").emitted == [Sentence("```py a.")]
            && OpenAtEnd(Delimiters(patterns), "```py a.")
  {
    hide Clean, PairRun, SkipRun, Masked, OpenAtEnd, Inside, Sound;
    var patterns := [Pattern("code", "```py", "```", Remove)];
    FenceIsClean();
    assert Delimiters(patterns) == [StartEndTags("```py", "```")];
    SplitInsideFence();
    OpenIffInsideOrMasked(Delimiters(patterns), "```py a.");
    OneSliceIsOneSentence(patterns, "```py a. b", "```py a.");
  }

  lemma {:induction false} FenceIsClean()
    ensures var patterns := [Pattern("code", "```py", "```", Remove)];
            Sound(patterns) && Clean(patterns, "```py a. b")
  {
    var p, text := Pattern("code", "```py", "```", Remove), "```py a. b";
    assert text[0..5] == p.start;
    FindIs(text, p.start, 0, 0);
    forall at: nat | 5 <= at ensures !OccursAt(text, p.end, at) {
      assert at + 3 <= |text| ==> text[at..at + 3][0] == text[at];
    }
    assert Region(p, text).None?;
  }

  lemma {:induction false} StrayEndIsClean()
    ensures var patterns := [Pattern("note", "[", "]", Remove)]; Sound(patterns) && Clean(patterns, "][a. b")
  {
    var p, text := Pattern("note", "[", "]", Remove), "][a. b";
    assert text[0..1] == "]" && text[1..2] == "[";
    FindIs(text, "[", 0, 1);
    forall at: nat | 2 <= at ensures !OccursAt(text, "]", at) {
      assert at + 1 <= |text| ==> text[at..at + 1][0] == text[at];
    }
    assert Region(p, text).None?;
  }

  /** No character of `t` ends a sentence. */
  predicate NoMark(t: string) {
    forall i :: 0 <= i < |t| ==> !IsTerminal(t[i])
  }

  function Command(p: Pattern, body: string): string {
    p.start + body + p.end
  }

  lemma {:induction false} CommandParts(p: Pattern, body: string)
    ensures var text, at := Command(p, body), |p.start| + |body|;
            && |text| == at + |p.end| && text[..|p.start|] == p.start
            && text[|p.start|..at] == body && text[at..] == p.end
  {
  }

  /** A command: start, body, and an end that does not occur any earlier. */
  predicate IsCommand(p: Pattern, body: string) {
    && p.start != "" && p.end != "" && NoMark(p.start)
    && Find(Command(p, body), p.end, 0) == Some(|p.start| + |body|)
  }

  /** A command for an aggregating pattern hands out one match, its trimmed body, and leaves no text. */
  lemma {:induction false} OneCommandIsHandedOut(p: Pattern, body: string)
    requires p.action.Aggregate? && IsCommand(p, body)
    ensures PairRun([p], false, Command(p, body))
            == PairState("", false, [Surfaced(PatternMatch(p.id, Trim(body)))])
  {
    hide *;
    var text, patterns := Command(p, body), [p];
    var n := |text| - 1;
    SoundAlone(p);
    CommandIsSurfaced(p, body);
    CommandIsHeldBack(p, body, n);
    Snoc(text);
    PairRunNext(patterns, false, text[..n], text[n]);
    SurfacesAll(patterns, PairState(text[..n], false, []), text[n], PatternMatch(p.id, Trim(body)));
  }

  lemma {:induction false} Snoc(t: string)
    requires t != ""
    ensures t == t[..|t| - 1] + [t[|t| - 1]]
  {
  }

  lemma {:induction false} SoundAlone(p: Pattern)
    requires p.action.Aggregate?
    ensures Sound([p])
  {
  }

  lemma {:induction false} SurfacesAll(patterns: seq<Pattern>, a: PairState, ch: char, m: PatternMatch)
    requires Sound(patterns) && a.emitted == [] && Process(patterns, a.text + [ch]) == ("", Some(m))
    ensures PairStep(patterns, a, ch) == PairState("", a.waiting, [Surfaced(m)])
  {
    hide Process, Incomplete, Check;
  }

  lemma {:induction false} CommandIsSurfaced(p: Pattern, body: string)
    requires p.action.Aggregate? && IsCommand(p, body)
    ensures Command(p, body) != "" && Process([p], Command(p, body)) == ("", Some(PatternMatch(p.id, Trim(body))))
  {
    CommandParts(p, body);
    assert p.end != "";
    hide IsCommand, Process, Region, FirstComplete, Inner, Replaced, Trim;
    CommandIsRegion(p, body);
    CompleteAlone(p, Command(p, body));
    ProcessAt([p], Command(p, body), 0);
  }

  /** Until its end is complete, all of a command stays in the buffer. */
  lemma {:induction false} CommandIsHeldBack(p: Pattern, body: string, n: nat)
    requires IsCommand(p, body) && n < |Command(p, body)|
    ensures PairRun([p], false, (Command(p, body))[..n]) == PairState((Command(p, body))[..n], false, [])
  {
    var text := Command(p, body);
    hide PairStep, Find, NoMark;
    if n == 0 {
      EmptyPairRun([p], false);
    } else {
      CommandIsHeldBack(p, body, n - 1);
      assert text[..n] == text[..n - 1] + [text[n - 1]];
      PairRunNext([p], false, text[..n - 1], text[n - 1]);
      CommandGoesOn(p, body, n);
    }
  }

  lemma {:induction false} CommandGoesOn(p: Pattern, body: string, n: nat)
    requires IsCommand(p, body) && 0 < n < |Command(p, body)|
    ensures var text := Command(p, body);
            PairStep([p], PairState(text[..n - 1], false, []), text[n - 1]) == PairState(text[..n], false, [])
  {
    var text := Command(p, body);
    assert text[..n] == text[..n - 1] + [text[n - 1]];
    NoEndYet(p, body, n);
    assert Clean([p], text[..n]);
    NothingComplete([p], text[..n]);
    CommandParts(p, body);
    hide Command;
    if n < |p.start| {
      assert text[n - 1] == p.start[n - 1];
      assert !EndsInMark(text[..n]);
    } else {
      assert text[..|p.start|] == p.start && text[..n][..|p.start|] == p.start;
      StartCounts(text[..n], p.start);
      assert Unclosed(p.start, p.end, text[..n]);
      assert Incomplete([p], text[..n]) by { assert Unclosed([p][0].start, [p][0].end, text[..n]); }
    }
    hide Process, Clean, Region, Unclosed, Find, SentenceEnd, IsWhitespace, NoMark, Count;
  }

  lemma {:induction false} StartCounts(t: string, start: string)
    requires start != "" && OccursAt(t, start, 0)
    ensures Count(t, start, 0) > 0
  {
    FindIs(t, start, 0, 0);
  }

  lemma {:induction false} NoEndYet(p: Pattern, body: string, n: nat)
    requires IsCommand(p, body) && n < |Command(p, body)|
    ensures Count((Command(p, body))[..n], p.end, 0) == 0 && Region(p, (Command(p, body))[..n]).None?
    ensures n < |p.start| ==> !Incomplete([p], (Command(p, body))[..n])
  {
    var text := Command(p, body);
    var part := text[..n];
    FindIsFirst(text, p.end, 0);
    hide Find, NoMark;
    forall at: nat ensures !OccursAt(part, p.end, at) {
      if OccursAt(part, p.end, at) {
        assert part == text[0..n];
        OccursInWhole(text, 0, n, p.end, at);
      }
    }
    assert Find(part, p.end, 0).None?;
  }

  lemma {:induction false} CommandIsRegion(p: Pattern, body: string)
    requires IsCommand(p, body)
    ensures var text := Command(p, body);
            && Region(p, text) == Some((0, |p.start| + |body|))
            && Inner(p, text) == body && Replaced(p, text, "") == ""
  {
    var text, at := Command(p, body), |p.start| + |body|;
    CommandParts(p, body);
    hide Command, NoMark;
    assert text[at..at + |p.end|] == text[at..];
    FindIs(text, p.start, 0, 0);
    FindIsFirst(text, p.end, 0);
    FindIs(text, p.end, |p.start|, at);
    RegionInFront(p, text, at);
  }

  lemma {:induction false} RegionInFront(p: Pattern, t: string, at: nat)
    requires Find(t, p.start, 0) == Some(0) && |p.start| <= at && Find(t, p.end, |p.start|) == Some(at)
    ensures Region(p, t) == Some((0, at))
    ensures Inner(p, t) == t[|p.start|..at] && Replaced(p, t, "") == t[at + |p.end|..]
  {
    hide Find, OccursAt;
  }

  lemma {:induction false} CompleteAlone(p: Pattern, t: string)
    requires Region(p, t).Some?
    ensures FirstComplete([p], t, 0) == Some(0)
  {
    assert [p][0] == p;
  }

  // ---------------------------------------------------------------- the aggregator

  /** What is handed to the caller: sentences carry the id "sentence" and lose their outer spaces. */
  function Handed(e: Emitted): PatternMatch {
    match e
    case Sentence(slice) => PatternMatch("sentence", TrimSpaces(slice))
    case Surfaced(found) => found
  }

  function HandedAll(emitted: seq<Emitted>): seq<PatternMatch> {
    if emitted == [] then [] else HandedAll(emitted[..|emitted| - 1]) + [Handed(emitted[|emitted| - 1])]
  }

  lemma {:induction false} HandedNext(emitted: seq<Emitted>, e: Emitted)
    ensures HandedAll(emitted + [e]) == HandedAll(emitted) + [Handed(e)]
  {
    assert (emitted + [e])[..|emitted|] == emitted;
  }

  /** The sentence check, read off its outcome: a waiting buffer is cut by a character that is no space. */
  ghost predicate IsAnswer(text: string, waits: bool, ch: char, found: Option<PatternMatch>, kept: string, after: bool)
  {
    if !waits || IsWhitespace(ch) then
      found.None? && kept == text && after == (waits || EndsInMark(text))
    else
      && !after
      && exists end :: EndsLastSentence(text, end) && CutAs(text, end, found, kept)
  }

  ghost predicate CutAs(text: string, end: Option<nat>, found: Option<PatternMatch>, kept: string) {
    match end
    case None => found.None? && kept == text
    case Some(m) =>
      && m <= |text| && found == Some(PatternMatch("sentence", TrimSpaces(text[..m]))) && kept == text[m..]
  }

  lemma {:induction false} CheckAnswers(text: string, waits: bool, ch: char, released: Option<string>)
    requires released == match Check(text, waits, ch).slice case None => None case Some(m) => Some(TrimSpaces(m))
    ensures var r := Check(text, waits, ch);
            var found := if released.None? then None else Some(PatternMatch("sentence", released.value));
            IsAnswer(text, waits, ch, found, r.text, r.waiting)
  {
    SentenceEndIs(text);
    hide EndsLastSentence, SentenceEnd, IsWhitespace, TrimSpaces, EndsInMark;
    var r := Check(text, waits, ch);
    var found := if released.None? then None else Some(PatternMatch("sentence", released.value));
    if waits && !IsWhitespace(ch) {
      assert EndsLastSentence(text, SentenceEnd(text)) && CutAs(text, SentenceEnd(text), found, r.text);
    }
  }

  /** A pair is open by the counts of its two delimiters. */
  lemma {:induction false} IncompleteIff(patterns: seq<Pattern>, t: string)
    ensures Incomplete(patterns, t) <==> exists i :: 0 <= i < |patterns| &&
                                                     Count(t, patterns[i].start, 0) > Count(t, patterns[i].end, 0)
  {
    if Incomplete(patterns, t) {
      var i :| 0 <= i < |patterns| && Unclosed(patterns[i].start, patterns[i].end, t);
      assert Count(t, patterns[i].start, 0) > Count(t, patterns[i].end, 0);
    } else {
      forall i | 0 <= i < |patterns| ensures Count(t, patterns[i].start, 0) <= Count(t, patterns[i].end, 0) {
        assert !Unclosed(patterns[i].start, patterns[i].end, t);
      }
    }
  }

  class PatternPairAggregator {
    const inner: SimpleTextAggregator
    const patterns: seq<Pattern>
    /** Everything fed since the last flush or reset, the flag then, and everything handed out since. */
    ghost var input: string
    ghost var waitingAtStart: bool
    ghost var out: seq<PatternMatch>

    ghost predicate Valid()
      reads this, inner
    {
      && Sound(patterns)
      && Follows(PairRun(patterns, waitingAtStart, input), inner.text, inner.needsLookahead, out)
    }

    static ghost predicate Follows(a: PairState, text: string, waiting: bool, out: seq<PatternMatch>) {
      text == a.text && waiting == a.waiting && out == HandedAll(a.emitted)
    }

    constructor (patterns: seq<Pattern>)
      requires Sound(patterns)
      ensures Valid() && input == "" && out == [] && this.patterns == patterns && fresh(inner)
    {
      hide PairRun, Process, Tail, Waiting, Spoken;
      this.patterns := patterns;
      inner := new SimpleTextAggregator();
      input, waitingAtStart, out := "", false, [];
      new;
      EmptyPairRun(patterns, false);
    }

    method IncompletePattern() returns (r: bool)
      ensures r <==> exists i :: 0 <= i < |patterns| &&
                                 Count(inner.text, patterns[i].start, 0) > Count(inner.text, patterns[i].end, 0)
    {
      for i := 0 to |patterns|
        invariant forall j :: 0 <= j < i ==> !Unclosed(patterns[j].start, patterns[j].end, inner.text)
      {
        if Unclosed(patterns[i].start, patterns[i].end, inner.text) {
          return true;
        }
      }
      return false;
    }

    /** Resolves complete pairs in the buffer until one is kept, one is surfaced, or none is left. */
    method ProcessCompletePatterns() returns (found: Option<PatternMatch>)
      requires Sound(patterns)
      modifies inner`text
      ensures (inner.text, found) == Process(patterns, old(inner.text))
      decreases |inner.text|
    {
      hide *;
      ghost var t := inner.text;
      for i := 0 to |patterns|
        invariant inner.text == t && FirstComplete(patterns, t, 0) == FirstComplete(patterns, t, i)
      {
        var p := patterns[i];
        RegionIs(p, t);
        FirstCompleteFrom(patterns, t, i);
        var sIdx := Find(inner.text, p.start, 0);
        if sIdx.None? {
          continue;
        }
        var afterStart := sIdx.value + |p.start|;
        var eIdx := Find(inner.text, p.end, afterStart);
        if eIdx.None? {
          continue;
        }
        var content := Trim(inner.text[afterStart..eIdx.value]);
        var fullEnd := eIdx.value + |p.end|;
        ProcessAt(patterns, t, i);
        match p.action {
          case Remove =>
            inner.text := inner.text[..sIdx.value] + inner.text[fullEnd..];
            found := ProcessCompletePatterns();
            return;
          case Keep =>
            inner.text := inner.text[..sIdx.value] + content + inner.text[fullEnd..];
            return None;
          case Aggregate =>
            inner.text := inner.text[..sIdx.value] + inner.text[fullEnd..];
            return Some(PatternMatch(p.id, content));
        }
      }
      FirstCompleteFrom(patterns, t, |patterns|);
      ProcessNone(patterns, t);
      return None;
    }

    /** One turn of the loop in `AggregateMatches`. */
    method Feed(ch: char) returns (found: Option<PatternMatch>)
      requires Valid()
      modifies this, inner
      ensures Valid() && input == old(input) + [ch]
      ensures out == if found.Some? then old(out) + [found.value] else old(out)
      ensures var (text, surfaced) := Process(patterns, old(inner.text) + [ch]);
              && (surfaced.Some? || Incomplete(patterns, text) ==>
                    found == surfaced && inner.text == text && inner.needsLookahead == old(inner.needsLookahead))
              && (surfaced.None? && !Incomplete(patterns, text) ==>
                    IsAnswer(text, old(inner.needsLookahead), ch, found, inner.text, inner.needsLookahead))
    {
      hide Process, Check, Incomplete, PairRun, HandedAll, EndsLastSentence, SplitsAt, IsWhitespace, EndsInMark,
           TrimSpaces, IsAnswer, Count;
      ghost var a := PairRun(patterns, waitingAtStart, input);
      PairRunNext(patterns, waitingAtStart, input, ch);
      input := input + [ch];
      inner.text := inner.text + [ch];
      found := ProcessCompletePatterns();
      if found.Some? {
        HandedNext(a.emitted, Surfaced(found.value));
        out := out + [found.value];
        return;
      }
      var incomplete := IncompletePattern();
      IncompleteIff(patterns, inner.text);
      if incomplete {
        return None;
      }
      ghost var text := inner.text;
      var sentence := inner.CheckSentenceWithLookahead(ch);
      CheckIs(text, a.waiting, ch, sentence, inner.text, inner.needsLookahead);
      CheckAnswers(text, a.waiting, ch, sentence);
      if sentence.Some? {
        HandedNext(a.emitted, Sentence(Check(text, a.waiting, ch).slice.value));
        found := Some(PatternMatch("sentence", sentence.value));
        out := out + [found.value];
      }
    }

    method AggregateMatches(chunk: string) returns (matches: seq<PatternMatch>)
      requires Valid()
      modifies this, inner
      ensures Valid() && input == old(input) + chunk
      ensures out == old(out) + matches
    {
      hide *;
      matches := [];
      for i := 0 to |chunk|
        invariant Valid()
        invariant input == old(input) + chunk[..i]
        invariant out == old(out) + matches
      {
        var found := Feed(chunk[i]);
        if found.Some? {
          matches := matches + [found.value];
        }
      }
    }

    /** An empty buffer keeps its flag: `Flush` then has nothing to clear. */
    method Flush() returns (rest: Option<string>)
      requires Valid()
      modifies this, inner
      ensures Valid() && input == "" && out == []
      ensures rest == if old(inner.text) == "" then None else Some(TrimSpaces(old(inner.text)))
      ensures inner.needsLookahead == (old(inner.text) == "" && old(inner.needsLookahead))
    {
      hide PairRun, Process, Tail, Waiting, Spoken;
      rest := inner.Flush();
      input, waitingAtStart, out := "", inner.needsLookahead, [];
      EmptyPairRun(patterns, waitingAtStart);
    }

    method Reset()
      requires Sound(patterns)
      modifies this, inner
      ensures Valid() && input == "" && out == [] && !inner.needsLookahead
    {
      hide PairRun, Process, Tail, Waiting, Spoken;
      inner.Reset();
      input, waitingAtStart, out := "", false, [];
      EmptyPairRun(patterns, false);
    }
  }
}
