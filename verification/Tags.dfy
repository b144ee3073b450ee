/**
 The aggregator that holds the sentence check back inside a tag pair (`SkipTagsAggregator` of
 flowcat-core/src/agent/text_filter.rs). It is tied to a function of its whole input; the lemmas
 are about that function.
 */
module Tags {
  import opened Text
  import opened Sentences

  // ---------------------------------------------------------------- vocabulary

  /** `text.matches(pattern).count()` from `from` on: occurrences taken left to right, not overlapping. */
  function Count(text: string, pattern: string, from: nat): nat
    requires from <= |text|
    decreases |text| - from
  {
    if pattern == "" then |text| - from + 1
    else
      match Find(text, pattern, from)
      case None => 0
      case Some(at) => 1 + Count(text, pattern, at + |pattern|)
  }

  /** More `start` than `end` delimiters have been seen. */
  predicate Unclosed(start: string, end: string, text: string) {
    Count(text, start, 0) > Count(text, end, 0)
  }

  function LastBefore(text: string, n: nat): (r: Option<nat>)
    requires n <= |text|
    ensures r.Some? ==> 0 < r.value <= n
  {
    if n == 0 then None
    else if IsBoundary(text, n - 1) then Some(n)
    else LastBefore(text, n - 1)
  }

  /** One past the last sentence end. */
  function SentenceEnd(text: string): (r: Option<nat>)
    ensures r.Some? ==> 0 < r.value <= |text|
  {
    LastBefore(text, |text|)
  }

  lemma {:induction false} LastBeforeIs(text: string, n: nat, end: Option<nat>)
    requires n <= |text| && EndsLastSentence(text, end)
    requires forall i: nat :: n <= i < |text| ==> !IsBoundary(text, i)
    ensures LastBefore(text, n) == end
  {
    if n > 0 && !IsBoundary(text, n - 1) {
      LastBeforeIs(text, n - 1, end);
    }
  }

  lemma {:induction false} SentenceEndIs(text: string)
    ensures EndsLastSentence(text, SentenceEnd(text))
  {
    var end := LastBoundary(text);
    LastBeforeIs(text, |text|, end);
  }

  /** What the sentence check leaves: the buffer, the flag, and what it has split off. */
  datatype Checked = Checked(text: string, waiting: bool, slice: Option<string>)

  function Check(text: string, waiting: bool, ch: char): Checked {
    if !waiting then Checked(text, EndsInMark(text), None)
    else if IsWhitespace(ch) then Checked(text, true, None)
    else
      match SentenceEnd(text)
      case None => Checked(text, false, None)
      case Some(m) => Checked(text[m..], false, Some(text[..m]))
  }

  /** `Check` is what the method of the sentence aggregator does. */
  lemma {:induction false} CheckIs(text: string, waiting: bool, ch: char, released: Option<string>, kept: string,
                                   waits: bool)
    requires waits == if waiting then IsWhitespace(ch) else EndsInMark(text)
    requires !waiting || IsWhitespace(ch) ==> released.None? && kept == text
    requires waiting && !IsWhitespace(ch) ==>
               exists end: Option<nat> :: EndsLastSentence(text, end) && SplitsAt(text, end, released, kept)
    ensures var r := Check(text, waiting, ch);
            kept == r.text && waits == r.waiting
              && released == if r.slice.None? then None else Some(TrimSpaces(r.slice.value))
  {
    if waiting && !IsWhitespace(ch) {
      var end: Option<nat> :| EndsLastSentence(text, end) && SplitsAt(text, end, released, kept);
      LastBeforeIs(text, |text|, end);
    }
  }

  lemma {:induction false} CheckSplits(text: string, waiting: bool, ch: char)
    ensures var r := Check(text, waiting, ch);
            && text == (if r.slice.Some? then r.slice.value else "") + r.text
            && (r.slice.Some? ==> EndsLastSentence(text, Some(|r.slice.value|)))
  {
    SentenceEndIs(text);
  }

  // ---------------------------------------------------------------- splitting runs

  /** `slices` are the sentences split off so far, untrimmed. */
  datatype Progress = Progress(text: string, waiting: bool, slices: seq<string>)

  type Step = (Progress, char) -> Progress

  /** The state after a whole input. */
  function Fold(step: Step, input: string): Progress {
    if input == "" then Progress("", false, [])
    else step(Fold(step, input[..|input| - 1]), input[|input| - 1])
  }

  lemma {:induction false} FoldNext(step: Step, input: string, ch: char)
    ensures Fold(step, input + [ch]) == step(Fold(step, input), ch)
  {
    assert (input + [ch])[..|input|] == input;
  }

  /** `after` is `before` plus one character, with at most one slice split off at the last sentence end. */
  ghost predicate SplitBy(before: Progress, ch: char, slice: Option<string>, after: Progress) {
    match slice
    case None => after.slices == before.slices && after.text == before.text + [ch]
    case Some(s) =>
      && after.slices == before.slices + [s]
      && before.text + [ch] == s + after.text
      && EndsLastSentence(before.text + [ch], Some(|s|))
  }

  ghost predicate CanSplit(before: Progress, ch: char, after: Progress) {
    exists slice :: SplitBy(before, ch, slice, after)
  }

  ghost predicate OnlySplits(step: Step) {
    forall a, ch :: CanSplit(a, ch, step(a, ch))
  }

  lemma {:induction false} FlattenAppend(parts: seq<string>, part: string)
    ensures Flatten(parts + [part]) == Flatten(parts) + part
  {
    assert (parts + [part])[..|parts|] == parts;
  }

  lemma {:induction false} SplitConserves(a: Progress, ch: char, slice: Option<string>, b: Progress)
    requires SplitBy(a, ch, slice, b)
    ensures Flatten(b.slices) + b.text == Flatten(a.slices) + a.text + [ch]
  {
    Associates(Flatten(a.slices), a.text, [ch]);
    if slice.Some? {
      FlattenAppend(a.slices, slice.value);
      Associates(Flatten(a.slices), slice.value, b.text);
    }
  }

  lemma {:induction false} NothingSplit(step: Step)
    ensures Flatten(Fold(step, "").slices) + Fold(step, "").text == ""
  {
  }

  /** Nothing is lost or reordered. */
  lemma {:induction false} RunIsLossless(step: Step, input: string)
    requires OnlySplits(step)
    ensures Flatten(Fold(step, input).slices) + Fold(step, input).text == input
  {
    hide Flatten, Fold, SplitBy;
    if input == "" {
      NothingSplit(step);
    } else {
      var before, ch := input[..|input| - 1], input[|input| - 1];
      assert input == before + [ch];
      FoldNext(step, before, ch);
      RunIsLossless(step, before);
      var a := Fold(step, before);
      assert CanSplit(a, ch, step(a, ch));
      var slice :| SplitBy(a, ch, slice, step(a, ch));
      SplitConserves(a, ch, slice, step(a, ch));
    }
  }

  /** How many characters have left the buffer. */
  function Gone(a: Progress): nat {
    |Flatten(a.slices)|
  }

  /** Every sentence end in the buffer was read by a buffer that ended exactly there. */
  ghost predicate ReadInPlace(step: Step, input: string, text: string, gone: nat) {
    && gone + |text| == |input|
    && forall i: nat :: i < |text| && IsBoundary(text, i) ==> Fold(step, input[..gone + i]).text == text[..i]
  }

  lemma {:induction false} BoundariesShrink(text: string, ch: char, i: nat)
    requires i < |text| && IsBoundary(text + [ch], i)
    ensures IsBoundary(text, i)
  {
  }

  /** After a split at the last sentence end, none is left in what is kept. */
  lemma {:induction false} KeptHasNoEnd(slice: string, kept: string, i: nat)
    requires EndsLastSentence(slice + kept, Some(|slice|)) && i < |kept|
    ensures !IsBoundary(kept, i)
  {
    assert !IsBoundary(slice + kept, |slice| + i);
    SameDecimals(slice + kept, |slice|, i);
    assert (slice + kept)[|slice|..] == kept;
  }

  /** The buffer plus one character is still read in place. */
  lemma {:induction false} BufferReadInPlace(step: Step, input: string, ch: char, text: string, gone: nat)
    requires ReadInPlace(step, input, text, gone) && Fold(step, input).text == text
    ensures ReadInPlace(step, input + [ch], text + [ch], gone)
  {
    var longer := text + [ch];
    forall i: nat | i < |longer| && IsBoundary(longer, i)
      ensures Fold(step, (input + [ch])[..gone + i]).text == longer[..i]
    {
      assert (input + [ch])[..gone + i] == input[..gone + i] && longer[..i] == text[..i];
      if i < |text| {
        BoundariesShrink(text, ch, i);
      } else {
        assert input[..gone + i] == input && text[..i] == text;
      }
    }
  }

  lemma {:induction false} AlwaysReadInPlace(step: Step, input: string)
    requires OnlySplits(step)
    ensures ReadInPlace(step, input, Fold(step, input).text, Gone(Fold(step, input)))
  {
    RunIsLossless(step, input);
    if input != "" {
      var before, ch := input[..|input| - 1], input[|input| - 1];
      assert input == before + [ch];
      AlwaysReadInPlace(step, before);
      var a := Fold(step, before);
      var b := step(a, ch);
      assert CanSplit(a, ch, b);
      var slice :| SplitBy(a, ch, slice, b);
      if slice.None? {
        BufferReadInPlace(step, before, ch, a.text, Gone(a));
      } else {
        forall i: nat | i < |b.text| ensures !IsBoundary(b.text, i) { KeptHasNoEnd(slice.value, b.text, i); }
      }
    }
  }

  /** A released slice is exactly the buffer as it stood when the slice's last mark was read. */
  lemma {:induction false} SliceIsAnOldBuffer(step: Step, input: string, ch: char, slice: string)
    requires OnlySplits(step)
    requires Fold(step, input + [ch]).slices == Fold(step, input).slices + [slice]
    ensures var text, mark := input + [ch], Gone(Fold(step, input)) + |slice| - 1;
            && slice != "" && mark < |text| && IsTerminal(text[mark])
            && slice == Fold(step, text[..mark]).text + [text[mark]]
  {
    hide Fold, Flatten, IsBoundary, ReadInPlace;
    FoldNext(step, input, ch);
    AlwaysReadInPlace(step, input);
    RunIsLossless(step, input);
    var a := Fold(step, input);
    var buffer, k := a.text + [ch], |slice| - 1;
    OneSlice(step, a, ch, slice);
    BoundaryIsMark(buffer, k);
    BufferReadInPlace(step, input, ch, a.text, Gone(a));
    ReadInPlaceAt(step, input + [ch], buffer, Gone(a), k);
    Associates(Flatten(a.slices), a.text, [ch]);
    assert (Flatten(a.slices) + buffer)[Gone(a) + k] == buffer[k];
  }

  /** The slice that one step adds is the front of the buffer up to its last sentence end. */
  lemma {:induction false} OneSlice(step: Step, a: Progress, ch: char, slice: string)
    requires OnlySplits(step) && step(a, ch).slices == a.slices + [slice]
    ensures var buffer := a.text + [ch];
            && 0 < |slice| <= |buffer| && IsBoundary(buffer, |slice| - 1)
            && slice == buffer[..|slice| - 1] + [buffer[|slice| - 1]]
  {
    hide IsBoundary;
    var b := step(a, ch);
    assert CanSplit(a, ch, b);
    var moved :| SplitBy(a, ch, moved, b);
    assert b.slices[|a.slices|] == slice && moved == Some(slice);
  }

  lemma {:induction false} BoundaryIsMark(text: string, i: nat)
    requires i < |text| && IsBoundary(text, i)
    ensures IsTerminal(text[i])
  {
  }

  lemma {:induction false} ReadInPlaceAt(step: Step, input: string, text: string, gone: nat, i: nat)
    requires ReadInPlace(step, input, text, gone) && i < |text| && IsBoundary(text, i)
    ensures gone + i < |input| && Fold(step, input[..gone + i]).text == text[..i]
  {
  }

  // ---------------------------------------------------------------- tag pairs

  datatype StartEndTags = StartEndTags(start: string, end: string)

  /** Some tag pair is unclosed in the buffer. */
  predicate Inside(tags: seq<StartEndTags>, text: string) {
    exists i :: 0 <= i < |tags| && Unclosed(tags[i].start, tags[i].end, text)
  }

  /** Reads one character; inside a tag the sentence check is skipped. */
  function SkipStep(tags: seq<StartEndTags>): Step {
    (a: Progress, ch: char) =>
      if Inside(tags, a.text + [ch]) then a.(text := a.text + [ch])
      else
        var r := Check(a.text + [ch], a.waiting, ch);
        Progress(r.text, r.waiting, if r.slice.Some? then a.slices + [r.slice.value] else a.slices)
  }

  function SkipRun(tags: seq<StartEndTags>, input: string): Progress {
    Fold(SkipStep(tags), input)
  }

  lemma {:induction false} SkipSplits(tags: seq<StartEndTags>, a: Progress, ch: char)
    ensures CanSplit(a, ch, SkipStep(tags)(a, ch))
  {
    var buffer := a.text + [ch];
    CheckSplits(buffer, a.waiting, ch);
    var slice := if Inside(tags, buffer) then None else Check(buffer, a.waiting, ch).slice;
    assert SplitBy(a, ch, slice, SkipStep(tags)(a, ch));
  }

  lemma {:induction false} SkipOnlySplits(tags: seq<StartEndTags>)
    ensures OnlySplits(SkipStep(tags))
  {
    forall a, ch ensures CanSplit(a, ch, SkipStep(tags)(a, ch)) {
      SkipSplits(tags, a, ch);
    }
  }

  /** Nothing is lost or reordered, inside tags or outside. */
  lemma {:induction false} SkipIsLossless(tags: seq<StartEndTags>, input: string)
    ensures var a := SkipRun(tags, input); Flatten(a.slices) + a.text == input
  {
    SkipOnlySplits(tags);
    RunIsLossless(SkipStep(tags), input);
  }

  /** The guard skipped the sentence check when it read the character at `i`. */
  predicate Withheld(tags: seq<StartEndTags>, text: string, i: nat)
    requires i < |text|
  {
    Inside(tags, SkipRun(tags, text[..i]).text + [text[i]])
  }

  /** Reading `ch` releases `slice`. */
  ghost predicate Releases(tags: seq<StartEndTags>, input: string, ch: char, slice: string) {
    SkipRun(tags, input + [ch]).slices == SkipRun(tags, input).slices + [slice]
  }

  /** The guard's test, in counts. */
  lemma {:induction false} InsideIs(tags: seq<StartEndTags>, text: string)
    ensures Inside(tags, text) <==>
              exists i :: 0 <= i < |tags| && Count(text, tags[i].start, 0) > Count(text, tags[i].end, 0)
  {
    hide Count;
    if i :| 0 <= i < |tags| && Count(text, tags[i].start, 0) > Count(text, tags[i].end, 0) {
      assert Unclosed(tags[i].start, tags[i].end, text);
    }
  }

  /** What reading `ch` does to the flag and the buffer: inside a tag the flag is left alone. */
  lemma {:induction false} ReadingMoves(tags: seq<StartEndTags>, input: string, ch: char)
    ensures var a, b := SkipRun(tags, input), SkipRun(tags, input + [ch]);
            var buffer := a.text + [ch];
            var released := b.slices != a.slices;
            && b.waiting == (if Inside(tags, buffer) then a.waiting
                             else if a.waiting then IsWhitespace(ch)
                             else IsTerminal(ch))
            && (!released ==> b.text == buffer)
            && (released ==> SentenceEnd(buffer).Some? && b.text == buffer[SentenceEnd(buffer).value..])
  {
    hide Inside, SentenceEnd, IsWhitespace, IsTerminal, Fold;
    FoldNext(SkipStep(tags), input, ch);
    var buffer := SkipRun(tags, input).text + [ch];
    assert buffer[|buffer| - 1] == ch;
  }

  /** The one slice that reading `ch` can release, from the state before it. */
  lemma {:induction false} ReleasesIff(tags: seq<StartEndTags>, input: string, ch: char, slice: string)
    ensures var a := SkipRun(tags, input);
            var buffer := a.text + [ch];
            && (Inside(tags, buffer) <==>
                  exists i :: 0 <= i < |tags| && Count(buffer, tags[i].start, 0) > Count(buffer, tags[i].end, 0))
            && (Releases(tags, input, ch, slice) <==>
                  && a.waiting && !IsWhitespace(ch) && !Inside(tags, buffer)
                  && SentenceEnd(buffer).Some? && slice == buffer[..SentenceEnd(buffer).value])
  {
    InsideIs(tags, SkipRun(tags, input).text + [ch]);
    hide Inside, SentenceEnd, IsWhitespace, Fold;
    FoldNext(SkipStep(tags), input, ch);
    var a := SkipRun(tags, input);
    var b := SkipStep(tags)(a, ch);
    assert |b.slices| > |a.slices| ==> b.slices[|a.slices|] == (a.slices + [b.slices[|a.slices|]])[|a.slices|];
    assert (a.slices + [slice])[|a.slices|] == slice;
  }

  /** A released slice has an unclosed tag exactly when its last mark was withheld. */
  lemma {:induction false} SliceInsideIffWithheld(tags: seq<StartEndTags>, input: string, ch: char, slice: string)
    requires Releases(tags, input, ch, slice)
    ensures var text, mark := input + [ch], Gone(SkipRun(tags, input)) + |slice| - 1;
            && slice != "" && mark < |text|
            && (Inside(tags, slice) <==> Withheld(tags, text, mark))
  {
    SkipOnlySplits(tags);
    SliceIsAnOldBuffer(SkipStep(tags), input, ch, slice);
    var text, mark := input + [ch], Gone(SkipRun(tags, input)) + |slice| - 1;
    assert slice == SkipRun(tags, text[..mark]).text + [text[mark]];
  }

  /** Where the last sentence end of the buffer and `ch` stands in the input. */
  function MarkOf(tags: seq<StartEndTags>, input: string, ch: char): Option<nat> {
    var a := SkipRun(tags, input);
    match SentenceEnd(a.text + [ch])
    case None => None
    case Some(end) => Some(Gone(a) + end - 1)
  }

  lemma {:induction false} MarkIsInInput(tags: seq<StartEndTags>, input: string, ch: char)
    ensures var mark := MarkOf(tags, input, ch); mark.Some? ==> mark.value < |input + [ch]|
  {
    SkipIsLossless(tags, input);
  }

  /**
   When a split leaves more starts than ends behind, as the guard itself counts them: the next
   character makes it happen exactly when the check is waiting, the character confirms, the guard
   sees no open tag after it, and the guard had withheld the last sentence end of the buffer.
   Whether a pair is really open is `SplitsOpenPairIff`.
   */
  lemma {:induction false} SplitsInsideOnlyAtWithheldMark(tags: seq<StartEndTags>, input: string, ch: char)
    ensures var a, mark := SkipRun(tags, input), MarkOf(tags, input, ch);
            && (mark.Some? ==> mark.value < |input + [ch]|)
            && ((exists slice :: Releases(tags, input, ch, slice) && Inside(tags, slice)) <==>
                  && a.waiting && !IsWhitespace(ch) && !Inside(tags, a.text + [ch])
                  && mark.Some? && Withheld(tags, input + [ch], mark.value))
  {
    hide Inside, SkipRun, Releases, Withheld, IsWhitespace;
    MarkIsInInput(tags, input, ch);
    var buffer := SkipRun(tags, input).text + [ch];
    if slice :| Releases(tags, input, ch, slice) && Inside(tags, slice) {
      ReleasesIff(tags, input, ch, slice);
      SliceInsideIffWithheld(tags, input, ch, slice);
    }
    if SentenceEnd(buffer).Some? {
      var slice := buffer[..SentenceEnd(buffer).value];
      ReleasesIff(tags, input, ch, slice);
      if Releases(tags, input, ch, slice) {
        SliceInsideIffWithheld(tags, input, ch, slice);
      }
    }
  }

  // ---------------------------------------------------------------- pairs that are really open

  /** Counting from later on never finds more. */
  lemma {:induction false} CountShrinks(text: string, p: string, i: nat, j: nat)
    requires i <= j <= |text|
    ensures Count(text, p, j) <= Count(text, p, i)
    decreases |text| - i
  {
    hide OccursAt;
    if p != "" {
      FindLater(text, p, i, j);
      hide Find;
      var first, later := Find(text, p, i), Find(text, p, j);
      if later.Some? && first.value < j {
        FoundFits(text, p, i);
        FoundFits(text, p, j);
        CountShrinks(text, p, first.value + |p|, later.value + |p|);
      }
    }
  }

  lemma {:induction false} FoundFits(text: string, p: string, i: nat)
    requires i <= |text| && Find(text, p, i).Some?
    ensures i <= Find(text, p, i).value && Find(text, p, i).value + |p| <= |text|
  {
  }

  /** The first occurrence from later on: the same one, or another behind it. */
  lemma {:induction false} FindLater(text: string, p: string, i: nat, j: nat)
    requires i <= j <= |text|
    ensures var first, later := Find(text, p, i), Find(text, p, j);
            && (later.Some? ==> first.Some? && first.value <= later.value)
            && (first.Some? && first.value >= j ==> later == first)
    decreases j - i
  {
    hide OccursAt;
    if i < j {
      FindLater(text, p, i + 1, j);
    }
  }

  lemma {:induction false} CountStep(text: string, p: string, from: nat)
    requires from <= |text| && p != ""
    ensures var at := Find(text, p, from);
            && (at.None? ==> Count(text, p, from) == 0)
            && (at.Some? ==> from <= at.value && at.value + |p| <= |text|
                             && Count(text, p, from) == 1 + Count(text, p, at.value + |p|))
  {
  }

  lemma {:induction false} CountAt(text: string, p: string, at: nat)
    requires p != "" && OccursAt(text, p, at)
    ensures at + |p| <= |text| && Count(text, p, at) == 1 + Count(text, p, at + |p|)
  {
    assert Find(text, p, at) == Some(at);
  }

  /** Something to count is found, and counting from there on is counting all. */
  lemma {:induction false} CountFromFirst(text: string, p: string, from: nat)
    requires from <= |text| && p != "" && Count(text, p, from) > 0
    ensures var at := Find(text, p, from);
            && at.Some? && OccursAt(text, p, at.value) && Count(text, p, at.value) == Count(text, p, from)
  {
    var at := Find(text, p, from).value;
    assert OccursAt(text, p, at) && Find(text, p, at) == Some(at);
  }

  /**
   The tag is open at the end: some start stands where from it on there are more starts than ends
   behind it, so that an end inside the start delimiter itself closes nothing. Where start and end
   are the same, every second one is an end.
   */
  predicate EndsOpen(tag: StartEndTags, text: string) {
    if tag.start == tag.end then tag.start != "" && Count(text, tag.start, 0) % 2 == 1
    else if tag.start == "" then Unclosed(tag.start, tag.end, text)
    else exists at: nat | at <= |text| :: SurplusAt(tag, text, at)
  }

  predicate SurplusAt(tag: StartEndTags, text: string, at: nat) {
    OccursAt(text, tag.start, at) && Count(text, tag.start, at) > Count(text, tag.end, at + |tag.start|)
  }

  /** What the guard counts as unclosed is open. */
  lemma {:induction false} UnclosedEndsOpen(tag: StartEndTags, text: string)
    requires Unclosed(tag.start, tag.end, text)
    ensures EndsOpen(tag, text)
  {
    hide Count;
    if tag.start != "" && tag.start != tag.end {
      CountFromFirst(text, tag.start, 0);
      var at := Find(text, tag.start, 0).value;
      CountShrinks(text, tag.end, 0, at + |tag.start|);
      assert SurplusAt(tag, text, at);
    }
  }

  /** Read pair by pair, each start up to the first end behind it: the last start has no end. */
  predicate LastPairOpen(tag: StartEndTags, text: string, from: nat)
    requires from <= |text| && tag.start != ""
    decreases |text| - from
  {
    match Find(text, tag.start, from)
    case None => false
    case Some(s) =>
      match Find(text, tag.end, s + |tag.start|)
      case None => true
      case Some(e) => LastPairOpen(tag, text, e + |tag.end|)
  }

  /** A pair that this reading leaves open is open; for equal delimiters the two agree. */
  lemma {:induction false} LastPairOpenEndsOpen(tag: StartEndTags, text: string)
    requires tag.start != ""
    ensures LastPairOpen(tag, text, 0) ==> EndsOpen(tag, text)
    ensures tag.start == tag.end ==> (LastPairOpen(tag, text, 0) <==> EndsOpen(tag, text))
  {
    if tag.start == tag.end {
      PairsByParity(tag.start, text, 0);
    } else if LastPairOpen(tag, text, 0) {
      var at := StartWithoutEnd(tag, text, 0);
    }
  }

  lemma {:induction false} PairsByParity(p: string, text: string, from: nat)
    requires p != "" && from <= |text|
    ensures LastPairOpen(StartEndTags(p, p), text, from) <==> Count(text, p, from) % 2 == 1
    decreases |text| - from
  {
    hide Count, Find;
    CountStep(text, p, from);
    var s := Find(text, p, from);
    if s.Some? {
      CountStep(text, p, s.value + |p|);
      var e := Find(text, p, s.value + |p|);
      if e.Some? {
        PairsByParity(p, text, e.value + |p|);
      }
    }
  }

  lemma {:induction false} StartWithoutEnd(tag: StartEndTags, text: string, from: nat) returns (at: nat)
    requires tag.start != "" && from <= |text| && LastPairOpen(tag, text, from)
    ensures at <= |text| && SurplusAt(tag, text, at)
    decreases |text| - from
  {
    hide Count, Find;
    at := Find(text, tag.start, from).value;
    var e := Find(text, tag.end, at + |tag.start|);
    if e.Some? {
      at := StartWithoutEnd(tag, text, e.value + |tag.end|);
    } else {
      CountAt(text, tag.start, at);
      EmptyIsFound(text, at + |tag.start|);
      CountStep(text, tag.end, at + |tag.start|);
    }
  }

  lemma {:induction false} EmptyIsFound(text: string, from: nat)
    requires from <= |text|
    ensures Find(text, "", from) == Some(from)
  {
  }

  // ---------------------------------------------------------------- what the count counts

  /** Occurrences from `from` on, each behind the one before it. */
  ghost predicate Spread(text: string, p: string, from: nat, at: seq<nat>)
    decreases |at|
  {
    at == [] || (from <= at[0] && OccursAt(text, p, at[0]) && Spread(text, p, at[0] + |p|, at[1..]))
  }

  /** The count is the greatest number of occurrences that do not overlap. */
  lemma {:induction false} CountIsMost(text: string, p: string, from: nat)
    requires p != "" && from <= |text|
    ensures exists at :: |at| == Count(text, p, from) && Spread(text, p, from, at)
    ensures forall at :: Spread(text, p, from, at) ==> |at| <= Count(text, p, from)
  {
    var most := CountedAt(text, p, from);
    forall at | Spread(text, p, from, at) ensures |at| <= Count(text, p, from) {
      NoMoreThanCount(text, p, from, at);
    }
  }

  lemma {:induction false} CountedAt(text: string, p: string, from: nat) returns (at: seq<nat>)
    requires p != "" && from <= |text|
    ensures |at| == Count(text, p, from) && Spread(text, p, from, at)
    decreases |text| - from
  {
    hide Count, Find, OccursAt;
    CountStep(text, p, from);
    var first := Find(text, p, from);
    if first.None? {
      at := [];
    } else {
      var rest := CountedAt(text, p, first.value + |p|);
      at := [first.value] + rest;
      assert at[1..] == rest;
    }
  }

  lemma {:induction false} NoMoreThanCount(text: string, p: string, from: nat, at: seq<nat>)
    requires p != "" && from <= |text| && Spread(text, p, from, at)
    ensures |at| <= Count(text, p, from)
    decreases |at|
  {
    hide Count, Find, OccursAt;
    if at != [] {
      FindIsFirst(text, p, from);
      CountStep(text, p, from);
      var next := Find(text, p, from).value + |p|;
      SpreadSooner(text, p, next, at[0] + |p|, at[1..]);
      NoMoreThanCount(text, p, next, at[1..]);
    }
  }

  lemma {:induction false} SpreadSooner(text: string, p: string, i: nat, j: nat, at: seq<nat>)
    requires i <= j && Spread(text, p, j, at)
    ensures Spread(text, p, i, at)
  {
  }

  /** No occurrence of `p` lies across the border of `a` and `b`. */
  ghost predicate BorderFree(a: string, b: string, p: string) {
    forall at: nat :: at < |a| < at + |p| ==> !OccursAt(a + b, p, at)
  }

  lemma {:induction false} OccursApart(a: string, b: string, p: string, at: nat)
    ensures at + |p| <= |a| ==> (OccursAt(a + b, p, at) <==> OccursAt(a, p, at))
    ensures at >= |a| ==> (OccursAt(a + b, p, at) <==> OccursAt(b, p, at - |a|))
  {
    var t := a + b;
    if at + |p| <= |a| { assert t[at..at + |p|] == a[at..at + |p|]; }
    if at >= |a| && at + |p| <= |t| { assert t[at..at + |p|] == b[at - |a|..at - |a| + |p|]; }
  }

  /** The first occurrence behind a front: in the front if there is one, else in the back. */
  lemma {:induction false} FindApart(a: string, b: string, p: string, from: nat)
    requires p != "" && from <= |a| && BorderFree(a, b, p)
    ensures Find(a, p, from).Some? ==> Find(a + b, p, from) == Find(a, p, from)
    ensures Find(a, p, from).None? ==> Find(a + b, p, from) == Find(a + b, p, |a|)
    decreases |a| - from
  {
    hide Find, OccursAt;
    var f := Find(a, p, from);
    FindIsFirst(a, p, from);
    forall i: nat | from <= i < |a| && (f.Some? ==> i < f.value) ensures !OccursAt(a + b, p, i) {
      OccursApart(a, b, p, i);
    }
    if f.Some? {
      OccursApart(a, b, p, f.value);
      OccurrenceFits(a, p, f.value);
      FindIs(a + b, p, from, f.value);
    } else {
      FindLater(a + b, p, from, |a|);
    }
  }

  lemma {:induction false} OccurrenceFits(text: string, p: string, at: nat)
    requires OccursAt(text, p, at)
    ensures at + |p| <= |text|
  {
  }

  lemma {:induction false} FindInBack(a: string, b: string, p: string, from: nat)
    requires from <= |b|
    ensures Find(a + b, p, |a| + from) ==
            match Find(b, p, from) case None => None case Some(at) => Some(|a| + at)
    decreases |b| - from
  {
    hide Find, OccursAt;
    var f := Find(b, p, from);
    FindIsFirst(b, p, from);
    forall i: nat | |a| + from <= i && (f.Some? ==> i < |a| + f.value) ensures !OccursAt(a + b, p, i) {
      OccursApart(a, b, p, i);
    }
    if f.Some? {
      OccursApart(a, b, p, |a| + f.value);
      FindIs(a + b, p, |a| + from, |a| + f.value);
    }
  }

  lemma {:induction false} CountOfBack(a: string, b: string, p: string, from: nat)
    requires p != "" && from <= |b|
    ensures Count(a + b, p, |a| + from) == Count(b, p, from)
    decreases |b| - from
  {
    hide Count, Find;
    FindInBack(a, b, p, from);
    CountStep(b, p, from);
    CountStep(a + b, p, |a| + from);
    if Find(b, p, from).Some? {
      CountOfBack(a, b, p, Find(b, p, from).value + |p|);
    }
  }

  /** Counts add up over such a border. */
  lemma {:induction false} CountApart(a: string, b: string, p: string, from: nat)
    requires p != "" && from <= |a| && BorderFree(a, b, p)
    ensures Count(a + b, p, from) == Count(a, p, from) + Count(b, p, 0)
    decreases |a| - from
  {
    hide Count, Find, BorderFree;
    FindApart(a, b, p, from);
    CountStep(a, p, from);
    CountStep(a + b, p, from);
    if Find(a, p, from).Some? {
      CountApart(a, b, p, Find(a, p, from).value + |p|);
    } else {
      CountStep(a + b, p, |a|);
      CountOfBack(a, b, p, 0);
    }
  }

  /** As many starts as ends, as in any number of complete pairs. */
  predicate Balanced(tag: StartEndTags, text: string) {
    Count(text, tag.start, 0) == Count(text, tag.end, 0)
  }

  ghost predicate TagFree(a: string, b: string, tag: StartEndTags) {
    tag.start != "" && tag.end != "" && BorderFree(a, b, tag.start) && BorderFree(a, b, tag.end)
  }

  /** Complete pairs in front change nothing: a start behind any number of them is inside. */
  lemma {:induction false} InsideBehindPairs(tag: StartEndTags, pairs: seq<string>, rest: string)
    requires forall i :: 0 <= i < |pairs| ==> Balanced(tag, pairs[i]) && TagFree(Flatten(pairs[..i]), pairs[i], tag)
    requires TagFree(Flatten(pairs), rest, tag)
    ensures Inside([tag], Flatten(pairs) + rest) <==> Count(rest, tag.start, 0) > Count(rest, tag.end, 0)
  {
    PairsAreBalanced(tag, pairs);
    var text := Flatten(pairs) + rest;
    CountApart(Flatten(pairs), rest, tag.start, 0);
    CountApart(Flatten(pairs), rest, tag.end, 0);
    hide Count, Flatten;
    assert [tag][0] == tag;
    assert Inside([tag], text) <==> Unclosed(tag.start, tag.end, text);
  }

  lemma {:induction false} PairsAreBalanced(tag: StartEndTags, pairs: seq<string>)
    requires tag.start != "" && tag.end != ""
    requires forall i :: 0 <= i < |pairs| ==> Balanced(tag, pairs[i]) && TagFree(Flatten(pairs[..i]), pairs[i], tag)
    ensures Balanced(tag, Flatten(pairs))
  {
    if pairs == [] {
      CountOfAbsent("", tag.start, 0);
      CountOfAbsent("", tag.end, 0);
    } else {
      var n := |pairs| - 1;
      var front := pairs[..n];
      assert forall i :: 0 <= i < n ==> front[i] == pairs[i] && front[..i] == pairs[..i];
      PairsAreBalanced(tag, front);
      assert TagFree(Flatten(front), pairs[n], tag) && Balanced(tag, pairs[n]);
      hide Count, BorderFree;
      CountApart(Flatten(front), pairs[n], tag.start, 0);
      CountApart(Flatten(front), pairs[n], tag.end, 0);
    }
  }

  predicate OpenAtEnd(tags: seq<StartEndTags>, text: string) {
    exists i :: 0 <= i < |tags| && EndsOpen(tags[i], text)
  }

  /** A pair is open but does not show in the guard's count: earlier ends outweigh its start, or its
      start and end are the same, or its start holds its end. */
  predicate Masked(tags: seq<StartEndTags>, text: string) {
    !Inside(tags, text) && OpenAtEnd(tags, text)
  }

  lemma {:induction false} OpenIffInsideOrMasked(tags: seq<StartEndTags>, text: string)
    ensures OpenAtEnd(tags, text) <==> Inside(tags, text) || Masked(tags, text)
  {
    hide Unclosed, EndsOpen;
    if i :| 0 <= i < |tags| && Unclosed(tags[i].start, tags[i].end, text) {
      UnclosedEndsOpen(tags[i], text);
    }
  }

  /**
   When a split leaves a tag pair open. The doc comment promises that it never does. In fact the
   next character makes it happen exactly when the check is waiting, the character confirms, the
   guard sees no open tag after it, and the last sentence end of the buffer was withheld or stands
   in a pair masked from the guard.
   */
  lemma {:induction false} SplitsOpenPairIff(tags: seq<StartEndTags>, input: string, ch: char)
    ensures var a, mark := SkipRun(tags, input), MarkOf(tags, input, ch);
            var buffer := a.text + [ch];
            && (mark.Some? ==> mark.value < |input + [ch]| && SentenceEnd(buffer).Some?)
            && ((exists slice :: Releases(tags, input, ch, slice) && OpenAtEnd(tags, slice)) <==>
                  && a.waiting && !IsWhitespace(ch) && !Inside(tags, buffer)
                  && mark.Some?
                  && (|| Withheld(tags, input + [ch], mark.value)
                      || Masked(tags, buffer[..SentenceEnd(buffer).value])))
  {
    hide Inside, SkipRun, Releases, Withheld, IsWhitespace, Masked, OpenAtEnd;
    MarkIsInInput(tags, input, ch);
    var buffer := SkipRun(tags, input).text + [ch];
    if slice :| Releases(tags, input, ch, slice) && OpenAtEnd(tags, slice) {
      ReleasesIff(tags, input, ch, slice);
      SliceInsideIffWithheld(tags, input, ch, slice);
      OpenIffInsideOrMasked(tags, slice);
    }
    if SentenceEnd(buffer).Some? {
      var slice := buffer[..SentenceEnd(buffer).value];
      ReleasesIff(tags, input, ch, slice);
      OpenIffInsideOrMasked(tags, slice);
      if Releases(tags, input, ch, slice) {
        SliceInsideIffWithheld(tags, input, ch, slice);
      }
    }
  }

  /** The same for pairs that earlier splits have already cut: the text up to the new cut, all slices
      taken together, ends in an open pair exactly when it does up to the last sentence end. */
  lemma {:induction false} CutsOpenPairIff(tags: seq<StartEndTags>, input: string, ch: char)
    ensures var a, text, mark := SkipRun(tags, input), input + [ch], MarkOf(tags, input, ch);
            && (mark.Some? ==> mark.value < |text|)
            && ((exists slice :: Releases(tags, input, ch, slice) && OpenAtEnd(tags, Flatten(a.slices + [slice]))) <==>
                  && a.waiting && !IsWhitespace(ch) && !Inside(tags, a.text + [ch])
                  && mark.Some? && OpenAtEnd(tags, text[..mark.value + 1]))
  {
    hide Inside, SkipRun, Releases, IsWhitespace, OpenAtEnd;
    MarkIsInInput(tags, input, ch);
    var a := SkipRun(tags, input);
    var buffer := a.text + [ch];
    if slice :| Releases(tags, input, ch, slice) && OpenAtEnd(tags, Flatten(a.slices + [slice])) {
      ReleasesIff(tags, input, ch, slice);
      CutIsPrefix(tags, input, ch);
    }
    if SentenceEnd(buffer).Some? {
      CutIsPrefix(tags, input, ch);
      ReleasesIff(tags, input, ch, buffer[..SentenceEnd(buffer).value]);
    }
  }

  lemma {:induction false} CutIsPrefix(tags: seq<StartEndTags>, input: string, ch: char)
    requires MarkOf(tags, input, ch).Some?
    ensures var a, mark := SkipRun(tags, input), MarkOf(tags, input, ch).value;
            var buffer := a.text + [ch];
            && mark < |input + [ch]| && SentenceEnd(buffer).Some?
            && Flatten(a.slices + [buffer[..SentenceEnd(buffer).value]]) == (input + [ch])[..mark + 1]
  {
    hide SkipRun, Flatten;
    var a := SkipRun(tags, input);
    var buffer := a.text + [ch];
    var end := SentenceEnd(buffer).value;
    MarkIsInInput(tags, input, ch);
    SkipIsLossless(tags, input);
    FlattenAppend(a.slices, buffer[..end]);
    Associates(Flatten(a.slices), a.text, [ch]);
    assert (Flatten(a.slices) + buffer)[..|Flatten(a.slices)| + end] == Flatten(a.slices) + buffer[..end];
  }

  // ---------------------------------------------------------------- runs the guard leaves alone

  /** The guard never skips the check on this input. */
  ghost predicate Unguarded(tags: seq<StartEndTags>, input: string) {
    forall n :: 0 <= n < |input| ==> !Inside(tags, Tail(input[..n]) + [input[n]])
  }

  /** Then it is cut as the plain sentence aggregator cuts it. */
  lemma {:induction false} UnguardedRunIsPlain(tags: seq<StartEndTags>, input: string)
    requires Unguarded(tags, input)
    ensures SkipRun(tags, input) == Progress(Tail(input), Waiting(input), Sentences.Sentences(input))
  {
    hide Inside, Tail, Waiting, Sentences.Sentences;
    if input == "" {
      NothingRead(tags);
    } else {
      var before, ch := input[..|input| - 1], input[|input| - 1];
      assert input == before + [ch];
      assert forall n :: 0 <= n < |before| ==> input[..n] == before[..n] && input[n] == before[n];
      UnguardedRunIsPlain(tags, before);
      FoldNext(SkipStep(tags), before, ch);
      assert input[..|before|] == before;
      assert !Inside(tags, Tail(input[..|before|]) + [input[|before|]]);
      PlainStep(before, ch);
    }
  }

  lemma {:induction false} NothingRead(tags: seq<StartEndTags>)
    ensures SkipRun(tags, "") == Progress(Tail(""), Waiting(""), Sentences.Sentences(""))
  {
  }

  /** One check moves the buffer, the flag and the sentences of the text along. */
  lemma {:induction false} PlainStep(t: string, ch: char)
    ensures var r := Check(Tail(t) + [ch], Waiting(t), ch);
            && r.text == Tail(t + [ch]) && r.waiting == Waiting(t + [ch])
            && Sentences.Sentences(t + [ch])
               == Sentences.Sentences(t) + if r.slice.Some? then [r.slice.value] else []
  {
    hide Tail, Waiting, Sentences.Sentences;
    NewWaiting(t, ch);
    if !Waiting(t) || IsWhitespace(ch) {
      StepQuietly(t, ch);
    } else {
      SentenceEndIs(Tail(t) + [ch]);
      StepConfirming(t, ch, SentenceEnd(Tail(t) + [ch]));
      assert Sentences.Sentences(t) + [] == Sentences.Sentences(t);
    }
  }

  /** A pair with equal delimiters never shows in the count, so the guard does nothing for it. */
  lemma {:induction false} EqualDelimitersAreIgnored(tags: seq<StartEndTags>, input: string)
    requires forall i :: 0 <= i < |tags| ==> tags[i].start == tags[i].end
    ensures !Inside(tags, input)
    ensures SkipRun(tags, input) == Progress(Tail(input), Waiting(input), Sentences.Sentences(input))
  {
    hide Count, SkipRun, Tail, Waiting, Sentences.Sentences;
    UnguardedRunIsPlain(tags, input);
  }

  /** Every start brings an end along, so ends are never outnumbered. */
  lemma {:induction false} StartsBringEnds(text: string, start: string, end: string, offset: nat, from: nat)
    requires end != "" && OccursAt(start, end, offset) && from <= |text|
    ensures Count(text, start, from) <= Count(text, end, from)
    decreases |text| - from
  {
    hide Count, Find;
    CountStep(text, start, from);
    var s := Find(text, start, from);
    if s.Some? {
      var at := s.value;
      OccursInside(text, start, end, at, offset);
      hide OccursAt;
      CountAt(text, end, at + offset);
      StartsBringEnds(text, start, end, offset, at + |start|);
      CountShrinks(text, end, at + offset + |end|, at + |start|);
      CountShrinks(text, end, from, at + offset);
    }
  }

  lemma {:induction false} OccursInside(text: string, outer: string, part: string, at: nat, offset: nat)
    requires OccursAt(text, outer, at) && OccursAt(outer, part, offset)
    ensures OccursAt(text, part, at + offset) && offset + |part| <= |outer|
  {
    var found := text[at..at + |outer|];
    assert found == outer && offset + |part| <= |found|;
    forall k | 0 <= k < |part| ensures text[at + offset + k] == part[k] {
      assert found[offset + k] == found[offset..offset + |part|][k] == part[k];
    }
    assert text[at + offset..at + offset + |part|] == part;
  }

  /** The end delimiter is part of the start delimiter. */
  predicate StartHoldsEnd(tag: StartEndTags) {
    tag.end != "" && exists offset: nat | offset <= |tag.start| :: OccursAt(tag.start, tag.end, offset)
  }

  /** A pair whose start holds its end never shows in the count either: the guard does nothing for it. */
  lemma {:induction false} StartsHoldingEndsAreIgnored(tags: seq<StartEndTags>, input: string)
    requires forall i :: 0 <= i < |tags| ==> StartHoldsEnd(tags[i])
    ensures !Inside(tags, input)
    ensures SkipRun(tags, input) == Progress(Tail(input), Waiting(input), Sentences.Sentences(input))
  {
    hide SkipRun, Tail, Waiting, Sentences.Sentences;
    forall text ensures !Inside(tags, text) { NeverInside(tags, text); }
    UnguardedRunIsPlain(tags, input);
  }

  lemma {:induction false} NeverInside(tags: seq<StartEndTags>, text: string)
    requires forall i :: 0 <= i < |tags| ==> StartHoldsEnd(tags[i])
    ensures !Inside(tags, text)
  {
    hide Count, OccursAt;
    forall i | 0 <= i < |tags| ensures !Unclosed(tags[i].start, tags[i].end, text) {
      var tag := tags[i];
      assert StartHoldsEnd(tag);
      var offset: nat :| offset <= |tag.start| && OccursAt(tag.start, tag.end, offset);
      StartsBringEnds(text, tag.start, tag.end, offset, 0);
    }
  }

  predicate NoMark(text: string) {
    forall i :: 0 <= i < |text| ==> !IsTerminal(text[i])
  }

  /** Text without marks only lengthens the buffer. */
  lemma {:induction false} ReadAllQuietly(tags: seq<StartEndTags>, text: string)
    requires NoMark(text)
    ensures SkipRun(tags, text) == Progress(text, false, [])
  {
    hide Inside;
    if text == "" {
      EmptyRun(tags);
    } else {
      var front, ch := text[..|text| - 1], text[|text| - 1];
      assert text == front + [ch];
      ReadAllQuietly(tags, front);
      ReadQuietly(tags, front, ch, text);
    }
  }

  /** Where the guard does nothing, the first sentence is released whatever it is part of. */
  lemma {:induction false} FirstSentenceIsReleased(tags: seq<StartEndTags>, front: string)
    requires NoMark(front) && forall i :: 0 <= i < |tags| ==> StartHoldsEnd(tags[i])
    ensures SkipRun(tags, front + ". b").slices == [front + "."]
  {
    var one, two, three := front + ".", front + ". ", front + ". b";
    NeverInside(tags, one);
    NeverInside(tags, two);
    NeverInside(tags, three);
    hide Inside, StartHoldsEnd;
    ReadAllQuietly(tags, front);
    ReadQuietly(tags, front, '.', one);
    assert two == one + [' '] && three == two + ['b'];
    FoldNext(SkipStep(tags), one, ' ');
    FoldNext(SkipStep(tags), two, 'b');
    ConfirmedAfterMark(front);
  }

  lemma {:induction false} ConfirmedAfterMark(front: string)
    requires NoMark(front)
    ensures Check(front + ". ", true, ' ') == Checked(front + ". ", true, None)
    ensures Check(front + ". b", true, 'b') == Checked(" b", false, Some(front + "."))
  {
    var text, n := front + ". b", |front|;
    assert text[n] == '.' && text[n + 1] == ' ' && text[n + 2] == 'b' && forall i :: 0 <= i < n ==> text[i] == front[i];
    assert EndsLastSentence(text, Some(n + 1));
    LastBeforeIs(text, |text|, Some(n + 1));
    assert text[..n + 1] == front + "." && text[n + 1..] == " b";
  }

  lemma {:induction false} CountOfAbsent(text: string, p: string, from: nat)
    requires p != "" && from <= |text| && forall i :: from <= i < |text| ==> text[i] != p[0]
    ensures Count(text, p, from) == 0
  {
    forall at: nat | from <= at ensures !OccursAt(text, p, at) {
      assert at + |p| <= |text| ==> text[at..at + |p|][0] == text[at];
    }
  }

  lemma {:induction false} CountOfSingle(text: string, c: char, at: nat)
    requires at < |text| && text[at] == c && forall i :: 0 <= i < |text| && i != at ==> text[i] != c
    ensures Count(text, [c], 0) == 1
  {
    assert OccursAt(text, [c], at);
    forall i: nat | i < at ensures !OccursAt(text, [c], i) {
      assert i + 1 <= |text| ==> text[i..i + 1][0] == text[i];
    }
    FindIs(text, [c], 0, at);
    CountOfAbsent(text, [c], at + 1);
  }

  lemma {:induction false} Brackets(text: string)
    requires text in {"[", "[.", "[.]", "[.]1", "[.]1.", "[.]1.1"}
    ensures Inside([StartEndTags("[", "]")], text) <==> text in {"[", "[."}
  {
    OneStartBeforeOneEnd(text);
  }

  lemma {:induction false} OneStartBeforeOneEnd(text: string)
    requires text != "" && text[0] == '[' && (|text| > 1 ==> text[1] == '.') && (|text| > 2 ==> text[2] == ']')
    requires forall i :: 3 <= i < |text| ==> text[i] != '[' && text[i] != ']'
    ensures Inside([StartEndTags("[", "]")], text) <==> |text| <= 2
  {
    CountOfSingle(text, '[', 0);
    if |text| <= 2 { CountOfAbsent(text, "]", 0); } else { CountOfSingle(text, ']', 2); }
    assert [StartEndTags("[", "]")][0] == StartEndTags("[", "]");
  }

  /** A character read before any mark is waiting only lengthens the buffer. */
  lemma {:induction false} ReadQuietly(tags: seq<StartEndTags>, before: string, ch: char, after: string)
    requires after == before + [ch] && SkipRun(tags, before) == Progress(before, false, [])
    ensures SkipRun(tags, after) == Progress(after, !Inside(tags, after) && IsTerminal(ch), [])
  {
    FoldNext(SkipStep(tags), before, ch);
  }

  /** The promise fails: the mark read inside the brackets is where the text is split. */
  lemma {:induction false} SplitInsideBrackets()
    ensures var tags := [StartEndTags("[", "]")];
            SkipRun(tags, "[.]1.1").slices == ["[."] && Inside(tags, "[.")
  {
    hide Inside, Fold, Check;
    var tags := [StartEndTags("[", "]")];
    Brackets("[");
    Brackets("[.");
    Brackets("[.]");
    Brackets("[.]1");
    Brackets("[.]1.");
    Brackets("[.]1.1");
    EmptyRun(tags);
    ReadQuietly(tags, "", '[', "[");
    ReadQuietly(tags, "[", '.', "[.");
    ReadQuietly(tags, "[.", ']', "[.]");
    ReadQuietly(tags, "[.]", '1', "[.]1");
    ReadQuietly(tags, "[.]1", '.', "[.]1.");
    FoldNext(SkipStep(tags), "[.]1.", '1');
    FallsBack();
    assert "[.]1." + ['1'] == "[.]1.1";
  }

  lemma {:induction false} StrayEnd(text: string)
    requires text in {"]", "][", "][a", "][a.", "][a. ", "][a. b"}
    ensures !Inside([StartEndTags("[", "]")], text)
  {
    OneEndBeforeOneStart(text);
  }

  lemma {:induction false} OneEndBeforeOneStart(text: string)
    requires text != "" && text[0] == ']' && (|text| > 1 ==> text[1] == '[')
    requires forall i :: 2 <= i < |text| ==> text[i] != '[' && text[i] != ']'
    ensures !Inside([StartEndTags("[", "]")], text)
  {
    CountOfSingle(text, ']', 0);
    if |text| > 1 { CountOfSingle(text, '[', 1); } else { CountOfAbsent(text, "[", 0); }
  }

  /** It fails behind a stray end too, which the guard never forgets: the pair `[a. b]` is cut, no mark withheld. */
  lemma {:induction false} SplitBehindStrayEnd()
    ensures var tags := [StartEndTags("[", "]")];
            SkipRun(tags, "][a. b").slices == ["][a."] && Masked(tags, "][a.")
  {
    var tags := [StartEndTags("[", "]")];
    MaskedByStrayEnd();
    hide Inside, Fold, Check, Masked;
    StrayEnd("]");
    StrayEnd("][");
    StrayEnd("][a");
    StrayEnd("][a.");
    StrayEnd("][a. ");
    StrayEnd("][a. b");
    EmptyRun(tags);
    ReadQuietly(tags, "", ']', "]");
    ReadQuietly(tags, "]", '[', "][");
    ReadQuietly(tags, "][", 'a', "][a");
    ReadQuietly(tags, "][a", '.', "][a.");
    FoldNext(SkipStep(tags), "][a.", ' ');
    assert "][a." + [' '] == "][a. ";
    FoldNext(SkipStep(tags), "][a. ", 'b');
    assert "][a. " + ['b'] == "][a. b";
    ConfirmedByLetter();
  }

  lemma {:induction false} MaskedByStrayEnd()
    ensures Masked([StartEndTags("[", "]")], "][a.")
  {
    var tag, text := StartEndTags("[", "]"), "][a.";
    StrayEnd(text);
    assert text[1..2] == "[" && OccursAt(text, "[", 1);
    FindIs(text, "[", 1, 1);
    assert Count(text, tag.start, 1) > 0;
    CountOfAbsent(text, "]", 2);
    assert SurplusAt(tag, text, 1);
    assert EndsOpen(tag, text);
    assert [tag][0] == tag;
  }

  lemma {:induction false} ConfirmedByLetter()
    ensures Check("][a. ", true, ' ') == Checked("][a. ", true, None)
    ensures Check("][a. b", true, 'b') == Checked(" b", false, Some("][a."))
  {
    var text := "][a. b";
    assert EndsLastSentence(text, Some(4));
    LastBeforeIs(text, 6, Some(4));
    assert text[..4] == "][a." && text[4..] == " b";
  }

  /** And it fails where the start holds the end: a fence is cut in its middle, with no stray end and no
      mark withheld. */
  lemma {:induction false} SplitInsideFence()
    ensures var tags := [StartEndTags("```py", "```")];
            SkipRun(tags, "```py a. b").slices == ["```py a."] && Masked(tags, "```py a.")
  {
    hide StartHoldsEnd, EndsOpen, Inside, SkipRun, NoMark, Masked;
    FenceHoldsItsEnd();
    FenceEndsOpen();
    FenceIsQuiet();
    OpenInIgnoredTag(StartEndTags("```py", "```"), "```py a.");
    FirstSentenceIsReleased([StartEndTags("```py", "```")], "```py a");
    assert "```py a" + ". b" == "```py a. b" && "```py a" + "." == "```py a.";
  }

  lemma {:induction false} OpenInIgnoredTag(tag: StartEndTags, text: string)
    requires StartHoldsEnd(tag) && EndsOpen(tag, text)
    ensures Masked([tag], text)
  {
    hide StartHoldsEnd, EndsOpen, Inside;
    NeverInside([tag], text);
    assert [tag][0] == tag;
  }

  lemma {:induction false} FenceIsQuiet()
    ensures NoMark("```py a")
  {
  }

  lemma {:induction false} FenceHoldsItsEnd()
    ensures StartHoldsEnd(StartEndTags("```py", "```"))
  {
    assert "```py"[0..3] == "```";
    assert OccursAt("```py", "```", 0);
  }

  lemma {:induction false} FenceEndsOpen()
    ensures EndsOpen(StartEndTags("```py", "```"), "```py a.")
  {
    var tag, text := StartEndTags("```py", "```"), "```py a.";
    assert text[0..5] == tag.start;
    FindIs(text, tag.start, 0, 0);
    assert Count(text, tag.start, 0) > 0;
    CountOfAbsent(text, tag.end, 5);
    assert SurplusAt(tag, text, 0);
  }

  lemma {:induction false} EmptyRun(tags: seq<StartEndTags>)
    ensures SkipRun(tags, "") == Progress("", false, [])
  {
  }

  /** The decimal point is no sentence end, so the check falls back to the mark in the brackets. */
  lemma {:induction false} FallsBack()
    ensures Check("[.]1.1", true, '1') == Checked("]1.1", false, Some("[."))
  {
    var end := "[.]1.1";
    assert EndsLastSentence(end, Some(2));
    LastBeforeIs(end, 6, Some(2));
    assert end[..2] == "[." && end[2..] == "]1.1";
  }

  class SkipTagsAggregator {
    const inner: SimpleTextAggregator
    const tags: seq<StartEndTags>
    var inside: bool
    /** Everything fed since the last flush or reset, and everything released from it. */
    ghost var input: string
    ghost var said: seq<string>

    ghost predicate Valid()
      reads this, inner
    {
      && Follows(SkipRun(tags, input), inner.text, inner.needsLookahead, said)
      && (inner.needsLookahead ==> inner.text != "")
    }

    constructor (tags: seq<StartEndTags>)
      ensures Valid() && input == "" && said == [] && this.tags == tags && fresh(inner)
    {
      hide SkipRun, Tail, Waiting, Spoken;
      this.tags := tags;
      inner := new SimpleTextAggregator();
      inside, input, said := false, "", [];
      new;
      EmptyFollows(tags);
    }

    method UpdateTagState()
      modifies this`inside
      ensures inside == Inside(tags, inner.text)
      ensures inside <==> exists i :: 0 <= i < |tags| &&
                            Count(inner.text, tags[i].start, 0) > Count(inner.text, tags[i].end, 0)
    {
      hide Count;
      InsideIs(tags, inner.text);
      for i := 0 to |tags|
        invariant forall j :: 0 <= j < i ==> !Unclosed(tags[j].start, tags[j].end, inner.text)
      {
        if Unclosed(tags[i].start, tags[i].end, inner.text) {
          inside := true;
          return;
        }
      }
      inside := false;
    }

    /** One turn of the loop in `Aggregate`. */
    method Feed(ch: char) returns (sentence: Option<string>)
      requires Valid()
      modifies this, inner
      ensures Valid() && input == old(input) + [ch]
      ensures said == if sentence.Some? then old(said) + [sentence.value] else old(said)
    {
      hide Check, Inside, Fold, EndsLastSentence, SplitsAt, IsWhitespace, EndsInMark, TrimSpaces, TrimAll;
      ghost var a := SkipRun(tags, input);
      FoldNext(SkipStep(tags), input, ch);
      input := input + [ch];
      inner.text := inner.text + [ch];
      UpdateTagState();
      if inside {
        return None;
      }
      sentence := inner.CheckSentenceWithLookahead(ch);
      CheckIs(a.text + [ch], a.waiting, ch, sentence, inner.text, inner.needsLookahead);
      ghost var slice := Check(a.text + [ch], a.waiting, ch).slice;
      if slice.Some? {
        TrimAllNext(a.slices, slice.value);
        said := said + [sentence.value];
      }
    }

    method Aggregate(chunk: string) returns (out: seq<string>)
      requires Valid()
      modifies this, inner
      ensures Valid() && input == old(input) + chunk
      ensures said == old(said) + out
    {
      hide *;
      out := [];
      for i := 0 to |chunk|
        invariant Valid()
        invariant input == old(input) + chunk[..i]
        invariant said == old(said) + out
      {
        var sentence := Feed(chunk[i]);
        if sentence.Some? {
          out := out + [sentence.value];
        }
      }
    }

    method Flush() returns (rest: Option<string>)
      requires Valid()
      modifies this, inner
      ensures Valid() && input == "" && said == [] && !inside
      ensures rest == if old(inner.text) == "" then None else Some(TrimSpaces(old(inner.text)))
    {
      hide SkipRun, Tail, Waiting, Spoken;
      inside := false;
      rest := inner.Flush();
      input, said := "", [];
      EmptyFollows(tags);
    }

    method Reset()
      modifies this, inner
      ensures Valid() && input == "" && said == [] && !inside
    {
      hide SkipRun, Tail, Waiting, Spoken;
      inner.Reset();
      inside, input, said := false, "", [];
      EmptyFollows(tags);
    }
  }

  /** The fields of an aggregator and its output so far are those of the run. */
  ghost predicate Follows(a: Progress, text: string, waiting: bool, said: seq<string>) {
    text == a.text && waiting == a.waiting && said == TrimAll(a.slices)
  }

  lemma {:induction false} EmptyFollows(tags: seq<StartEndTags>)
    ensures Follows(SkipRun(tags, ""), "", false, [])
  {
    hide SkipStep, Inside, Check;
  }

  lemma {:induction false} TrimAllNext(parts: seq<string>, part: string)
    ensures TrimAll(parts + [part]) == TrimAll(parts) + [TrimSpaces(part)]
  {
    assert (parts + [part])[..|parts|] == parts;
  }
}
