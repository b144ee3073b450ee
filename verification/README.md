# A verified model of the flowcat voice-agent runtime

This project models the stateful logic of flowcat, a voice-agent runtime: its streaming text
aggregators, voice-activity detection, audio arithmetic, workflow-graph engine, conversation gates,
and the channel pipeline of its benchmark. `dafny verify dfyconfig.toml` checks all of it.

Most components consume an unbounded stream and keep a few fields. For these the model is a class
with the source's fields, plus ghost fields for everything the object has received and given out.
`Valid()` says that the real fields and the output are functions of the received stream, where the
function is defined without the fields: a sentence split is defined on the whole text, a voice
verdict by looking back over the whole history, a wake gate on one speaker's transcripts alone. Every
method keeps `Valid()` and states what it adds to the streams. The lemmas are then about the
functions: that nothing is lost, that chunking does not matter, that greedy matching is complete,
that a walk never leaves an end node. What each function answers is stated a second time without it,
in counts, positions, single fields or the characters put out.

| file | what it models |
|---|---|
| `ChannelPipeline.dfy` | the benchmark's task chain as an interleaved step system |
| `Sentences.dfy`, `Tags.dfy`, `Patterns.dfy`, `Links.dfy` | the text aggregators and the link rewriter |
| `Vad.dfy`, `VadProcessor.dfy` | the voice-activity counter machine and the processor around it |
| `Ulaw.dfy` | the hand-written G.711 mu-law codec |
| `Recorder.dfy`, `Resampling.dfy` | the two-leg recorder timeline and the carry-buffer resampler |
| `Template.dfy` | the prompt interpolator and its placeholder resolution |
| `Graphs.dfy`, `Engines.dfy` | graph parsing, cardinality rules, and the run-time walk |
| `Navigation.dfy` | the scripted menu navigator |
| `WakeWords.dfy` | tokenizing, wake-phrase matching and the per-speaker gate |
| `TurnStrategies.dfy`, `Latch.dfy` | end-of-turn and mute strategies as latches over the event history |
| `AudioHook.dfy` | the Genesys session: numbered replies and the audio gate |
| `Text.dfy` | string searching and trimming used by the others |

## Where the code and its own comments part

- `SkipTagsAggregator` promises never to split inside a tag pair (flowcat-core/src/agent/text_filter.rs:179).
  It does so when the check falls back to a mark that the guard had withheld (`Tags.SplitInsideBrackets`),
  and when an open pair is masked from the guard's count of starts and ends: by a stray end before it
  (`Tags.SplitBehindStrayEnd`), because its start and end are the same
  (`Tags.EqualDelimitersAreIgnored`), or because its start holds its end, as a code fence's does
  (`Tags.SplitInsideFence`, `Tags.StartsHoldingEndsAreIgnored`). A pair counts as open when some start
  has more starts than ends from it on, ends inside the start itself aside; every pair that a reading
  start by start leaves without an end is then open (`Tags.LastPairOpenEndsOpen`).
  `Tags.SplitsOpenPairIff` says, from the state before a character, exactly when it cuts an open pair,
  and `Tags.CutsOpenPairIff` says it for pairs that an earlier split has already cut.
- `PatternPairAggregator` means to hold sentences back while a start delimiter is open (lines 303-304).
  `Patterns.PassesOnOpenPairIff` says exactly when it does not. Behind a stray end, or when its start
  holds its end, text that a removing pattern was to drop is passed on (`Patterns.StrayEndPassesPairOn`,
  `Patterns.FenceIsPassedOn`).
- `match_endofsentence` is commented as taking the last mark of a trailing run (lines 128-133). The
  lookahead makes marks pair up, so a run comes out in one piece exactly when it is one mark, or a
  pair whose first mark opens (`Sentences.WholeRunStaysTogetherIff`; `Sentences.EllipsisIsSplit` is an
  input that does not).
- An unterminated `{{` is commented as stopping the scan (flowcat-agent/src/engine.rs:587-590). The
  loop goes on, to the same result (`Template.Unterminated`).
- The final `\n` pass of the interpolator works on the assembled text, so a backslash that ends one
  piece and an `n` that begins the next are joined. `Template.RenderPiecewise` says exactly when the
  pass agrees with one made literal by literal and value by value.
- `collapse_links` says that it replaces every link, but what it puts together can be a link again:
  a link shown as a link loses only the inner one (`Links.NestedLinkSurvives`), and a bracketed word
  can meet an address that was part of a link's text. `Links.NoLinkLeftIff` is the exact condition.
- The menu navigator is greedy. With `stuck_after` 0 that loses nothing
  (`Navigation.PatientRunCompletesIff`). With a positive limit it can report `Stuck` where the script
  could still be matched (`Navigation.ImpatienceCanMissAssignments`); it completes exactly when the
  first match for every step comes within the limit (`Navigation.ImpatientRunCompletesIff`).
- Every `opened` reply announces `startPaused: false`, but a pause outlives a close and a new open
  (`AudioHook.PauseSurvivesReopening`; `AudioHook.OpenedFlowsIff` is the exact condition).
- The recursion of `process_complete_patterns` ends on every text exactly when no removing pattern
  with two empty delimiters is the first pattern without delimiters (`Patterns.EndsIffSound`).
- The two spellings of a fallback differ when the plain one begins with `fallback:`
  (`Template.FallbackSpellings`).
- The recorder's length law fails at sample rate 0 as soon as a leg has a chunk
  (`Recorder.LengthLawHoldsIff`).

## Model

| member | source | states |
|---|---|---|
| ChannelPipeline.RunIsSafe | bench-rs/src/main.rs:34-61 | in every reachable state, for any stage count, capacity and frame count: what the sink has plus queues and hands from tail to head plus the unsent frames is the script; no queue is over capacity; no enabled send or receive finds its channel dropped; the count never exceeds k and is k on return |
| ChannelPipeline.RunEnds | bench-rs/src/main.rs:170-192 | with capacity at least one, no run is longer than a fixed number of hops and joins, nothing is enabled exactly in a final state, a state is final exactly when that many steps were made, and then the result is k |
| ChannelPipeline.NoDeadlock | bench-rs/src/main.rs:34-44 | a good state that is not final has an enabled step |
| ChannelPipeline.SomeoneCanMove | bench-rs/src/main.rs:34-44 | a stage or sink still waiting in its loop leaves some step at or above its channel enabled |
| ChannelPipeline.DoneAbove | bench-rs/src/main.rs:34-44 | once everything has passed a channel, every stage above it has exited |
| ChannelPipeline.NoFault | bench-rs/src/main.rs:34-44 | in a good state no send fails and no receive finds its channel closed |
| ChannelPipeline.StepKeepsInv | bench-rs/src/main.rs:34-61 | one step of any task keeps every queue and every hand a window of the script |
| ChannelPipeline.StepMakesProgress | bench-rs/src/main.rs:34-44 | every step of any task adds one to hops made plus tasks joined |
| ChannelPipeline.UpstreamIsRest | bench-rs/src/main.rs:47-61 | what is still to come out of a channel is the rest of the script |
| ChannelPipeline.Drive | bench-rs/src/main.rs:170-192 | under a scheduler that may pick any enabled step the driver terminates and returns k |
| Text.TrimSpacesIs | flowcat-core/src/agent/text_filter.rs:73-119 | what a released sentence loses: exactly the spaces at either end |
| Text.TrimIs | flowcat-core/src/agent/text_filter.rs:313-343 | what a match and a placeholder lose: exactly the whitespace at either end |
| Text.TrimmedAwayIff | flowcat-agent/src/engine.rs:190-209 | a text trims to nothing exactly when it is all whitespace |
| Sentences.Lossless | flowcat-core/src/agent/text_filter.rs:73-110 | the untrimmed sentences followed by the buffer are the input |
| Sentences.ChunkingIsIrrelevant | flowcat-core/src/agent/text_filter.rs:101-110 | feeding a text in any chunks releases the sentences of the whole text |
| Sentences.SentencesEndInMark | flowcat-core/src/agent/text_filter.rs:73-98 | every sentence ends in a terminal mark, as cut and as released |
| Sentences.NoCutInDecimal | flowcat-core/src/agent/text_filter.rs:134-158 | no cut falls at a dot between two digits |
| Sentences.CutsAreFinal | flowcat-core/src/agent/text_filter.rs:73-98 | further input never withdraws a cut |
| Sentences.RunsAreSplitInPairs | flowcat-core/src/agent/text_filter.rs:134-158 | of two adjacent marks the first ends a sentence exactly when it closes a pair |
| Sentences.RunAlternates | flowcat-core/src/agent/text_filter.rs:134-158 | in a run of marks every second one ends a sentence, counted from the first that opens |
| Sentences.WholeRunStaysTogetherIff | flowcat-core/src/agent/text_filter.rs:128-158 | a run of marks stays in one piece exactly when it is a single mark or a pair whose first opens |
| Sentences.RunAfterWordOpens | flowcat-core/src/agent/text_filter.rs:73-98 | the first mark after a word character, or in a text, opens |
| Sentences.LoneMarkIsCutIff | flowcat-core/src/agent/text_filter.rs:73-158 | a mark behind a word ends a sentence exactly when the next character that is no whitespace is no mark and does not make it a decimal point |
| Sentences.LastMarkWaits | flowcat-core/src/agent/text_filter.rs:73-98 | with only whitespace behind it such a mark ends nothing yet and leaves the aggregator waiting |
| Sentences.CanEndSentenceIff | flowcat-core/src/agent/text_filter.rs:35-35 | eight characters can end a sentence, and no other can |
| Sentences.EllipsisIsSplit | flowcat-core/src/agent/text_filter.rs:128-158 | an input on which a run of marks is not released as a whole |
| Sentences.TailMarks | flowcat-core/src/agent/text_filter.rs:73-98 | the buffer invariant: every mark in the buffer is a decimal point or the pending one, which only whitespace follows |
| Sentences.EmptyTail | flowcat-core/src/agent/text_filter.rs:73-98 | an empty buffer is never waiting for lookahead |
| Sentences.StepReleases | flowcat-core/src/agent/text_filter.rs:73-98 | one call of the check moves exactly the newly completed sentence from the buffer to the output |
| Sentences.MatchEndOfSentence | flowcat-core/src/agent/text_filter.rs:134-158 | returns one past the last mark that is no decimal point, or nothing |
| Sentences.SimpleTextAggregator.CheckSentenceWithLookahead | flowcat-core/src/agent/text_filter.rs:73-98 | how buffer, flag and result follow from the character read |
| Sentences.SimpleTextAggregator.Feed | flowcat-core/src/agent/text_filter.rs:101-110 | one character keeps buffer, flag and output functions of the input |
| Sentences.SimpleTextAggregator.Aggregate | flowcat-core/src/agent/text_filter.rs:101-110 | a chunk releases exactly the sentences it completes |
| Sentences.SimpleTextAggregator.Flush | flowcat-core/src/agent/text_filter.rs:112-119 | the trimmed buffer, or nothing when it is empty, and a fresh start |
| Sentences.SimpleTextAggregator.Reset | flowcat-core/src/agent/text_filter.rs:121-124 | forgets the input |
| Tags.SkipIsLossless | flowcat-core/src/agent/text_filter.rs:215-228 | released slices followed by the buffer are the input, inside tags or outside |
| Tags.SplitsOpenPairIff | flowcat-core/src/agent/text_filter.rs:176-228 | from the state before a character: it makes the aggregator release a slice that ends in an open pair exactly when the check waits, the character confirms, the guard sees no open tag after it, and the last sentence end of the buffer was withheld or stands in a pair masked from the guard |
| Tags.CutsOpenPairIff | flowcat-core/src/agent/text_filter.rs:176-228 | the same with all slices taken together, so that a pair cut by an earlier split counts as open |
| Tags.OpenIffInsideOrMasked | flowcat-core/src/agent/text_filter.rs:201-211 | a pair is open exactly when the guard's count shows it or it is masked from the count |
| Tags.UnclosedEndsOpen | flowcat-core/src/agent/text_filter.rs:201-211 | whatever the guard counts as unclosed is open |
| Tags.LastPairOpenEndsOpen | flowcat-core/src/agent/text_filter.rs:164-175 | a pair that a reading start by start leaves without an end is open; for equal delimiters the two agree |
| Tags.SplitBehindStrayEnd | flowcat-core/src/agent/text_filter.rs:176-228 | an input that is split inside a pair which a stray end has masked |
| Tags.EqualDelimitersAreIgnored | flowcat-core/src/agent/text_filter.rs:201-228 | with equal delimiters no text is ever inside, and every input is cut as without tags |
| Tags.StartsHoldingEndsAreIgnored | flowcat-core/src/agent/text_filter.rs:201-228 | when every start holds its end, no text is ever inside either, and every input is cut as without tags |
| Tags.SplitInsideFence | flowcat-core/src/agent/text_filter.rs:176-228 | an input that is split inside such a pair, with no stray end and no mark withheld |
| Tags.UnguardedRunIsPlain | flowcat-core/src/agent/text_filter.rs:215-228 | while the guard does not step in, the aggregator is the plain sentence aggregator |
| Tags.SplitsInsideOnlyAtWithheldMark | flowcat-core/src/agent/text_filter.rs:201-228 | by the guard's own count alone: a slice with more starts than ends is released exactly when the last sentence end of the buffer was withheld |
| Tags.ReleasesIff | flowcat-core/src/agent/text_filter.rs:215-228 | from the same state, in the two counts: which slice a character releases, if any |
| Tags.SliceInsideIffWithheld | flowcat-core/src/agent/text_filter.rs:201-228 | a released slice has more starts than ends exactly when the check was withheld from its own last mark |
| Tags.SplitInsideBrackets | flowcat-core/src/agent/text_filter.rs:176-228 | an input that is split inside a tag pair |
| Tags.SliceIsAnOldBuffer | flowcat-core/src/agent/text_filter.rs:215-228 | a released slice is the buffer as it stood when the slice's last mark was read |
| Tags.CountIsMost | flowcat-core/src/agent/text_filter.rs:201-211 | the guard counts the most occurrences that can be told apart, however they are picked |
| Tags.CountApart | flowcat-core/src/agent/text_filter.rs:201-211 | occurrences on either side of a border that none straddles add up |
| Tags.InsideBehindPairs | flowcat-core/src/agent/text_filter.rs:201-211 | a start behind any number of complete pairs is inside, and the pairs themselves are not |
| Tags.InsideIs | flowcat-core/src/agent/text_filter.rs:201-211 | inside exactly when for some tag more starts than ends are counted |
| Tags.ReadingMoves | flowcat-core/src/agent/text_filter.rs:215-228 | from the state before a character: what the buffer keeps and how the waiting flag stands |
| Tags.CheckIs | flowcat-core/src/agent/text_filter.rs:73-98 | the check as a function of buffer, flag and character agrees with the method |
| Tags.SkipTagsAggregator.UpdateTagState | flowcat-core/src/agent/text_filter.rs:201-211 | inside exactly when for some tag the starts counted in the buffer are more than the ends counted |
| Tags.SkipTagsAggregator.Feed | flowcat-core/src/agent/text_filter.rs:215-228 | one character keeps the aggregator at the state of the whole input |
| Tags.SkipTagsAggregator.Aggregate | flowcat-core/src/agent/text_filter.rs:215-228 | a chunk moves the aggregator along the run of the input |
| Tags.SkipTagsAggregator.Flush | flowcat-core/src/agent/text_filter.rs:230-233 | clears the tag flag and flushes the buffer |
| Tags.SkipTagsAggregator.Reset | flowcat-core/src/agent/text_filter.rs:235-238 | clears flag and buffer |
| Patterns.RunIsSubsequence | flowcat-core/src/agent/text_filter.rs:348-367 | for all patterns and inputs the text passed on plus the buffer is a subsequence of the input |
| Patterns.RunIsClean | flowcat-core/src/agent/text_filter.rs:348-367 | with removing patterns only, no sentence and no buffer ever holds a complete pair |
| Patterns.PassesOnOpenPairIff | flowcat-core/src/agent/text_filter.rs:303-367 | from the state before a character: a sentence that ends in an open pair is passed on exactly when nothing is surfaced, the check waits, the character confirms, the counts show no open pair in the rewritten buffer, and up to its last sentence end they do show one or one is masked from them |
| Patterns.OpenIffStartStands | flowcat-core/src/agent/text_filter.rs:313-343 | where a pattern has no complete region, its pair is open exactly when its start stands there |
| Patterns.PassesOnIff | flowcat-core/src/agent/text_filter.rs:348-367 | which sentence a character passes on, if any |
| Patterns.SurfacesIff | flowcat-core/src/agent/text_filter.rs:348-356 | a match is handed out exactly when rewriting the buffer surfaces it |
| Patterns.EmitsAtMostOne | flowcat-core/src/agent/text_filter.rs:348-367 | a character hands out one sentence, or one match, or nothing |
| Patterns.StepLeaves | flowcat-core/src/agent/text_filter.rs:348-367 | what a character leaves in the buffer, and the waiting flag, from the state before it |
| Patterns.OneCommandIsHandedOut | flowcat-core/src/agent/text_filter.rs:313-367 | for an aggregating pattern and every body: start, body, end hands out one match, the trimmed body, and nothing else, and leaves the buffer empty |
| Patterns.CommandIsHeldBack | flowcat-core/src/agent/text_filter.rs:348-367 | until that end is complete everything stays in the buffer and nothing is handed out |
| Patterns.IncompleteIff | flowcat-core/src/agent/text_filter.rs:305-309 | a pair is open by the counts of its two delimiters |
| Patterns.FirstCompleteIsFirst | flowcat-core/src/agent/text_filter.rs:313-321 | no earlier pattern is complete than the one chosen |
| Patterns.CleanRunIsSkipRun | flowcat-core/src/agent/text_filter.rs:348-367 | on an input without complete pairs the aggregator runs as the tag guard does |
| Patterns.StrayEndPassesPairOn | flowcat-core/src/agent/text_filter.rs:303-367 | an input on which the start of a pair to be removed is passed on |
| Patterns.FenceIsPassedOn | flowcat-core/src/agent/text_filter.rs:303-367 | an input on which a start that holds its end is passed on with the text behind it |
| Patterns.RemovalCleans | flowcat-core/src/agent/text_filter.rs:313-343 | with removing patterns only, processing leaves no pattern whose end follows its first start |
| Patterns.RemovalShrinks | flowcat-core/src/agent/text_filter.rs:313-343 | the measure of the recursion: a removal with a non-empty delimiter shortens the buffer |
| Patterns.EmptyDelimitersRemoveNothing | flowcat-core/src/agent/text_filter.rs:313-343 | a pattern without delimiters is complete in every text, and removing it changes nothing |
| Patterns.ReachedIff | flowcat-core/src/agent/text_filter.rs:313-343 | a pattern without delimiters is reached for some text exactly when no earlier one has none |
| Patterns.EndsIffSound | flowcat-core/src/agent/text_filter.rs:313-343 | the recursion ends on every text exactly when every removing pattern without delimiters stands behind another pattern without them |
| Patterns.ChosenShrinks | flowcat-core/src/agent/text_filter.rs:313-343 | under that condition every removal the recursion makes shortens the buffer |
| Patterns.ProcessIsSubsequence | flowcat-core/src/agent/text_filter.rs:313-343 | rewriting only deletes characters, whatever the actions |
| Patterns.SurfacedMatch | flowcat-core/src/agent/text_filter.rs:313-343 | a surfaced match is the trimmed inside of an aggregating pattern's region, which is gone from the buffer |
| Patterns.PatternPairAggregator.IncompletePattern | flowcat-core/src/agent/text_filter.rs:305-309 | true exactly when for some pattern more starts than ends are counted in the buffer |
| Patterns.PatternPairAggregator.ProcessCompletePatterns | flowcat-core/src/agent/text_filter.rs:313-343 | the loop and the recursion compute the rewriting function, and end |
| Patterns.PatternPairAggregator.Feed | flowcat-core/src/agent/text_filter.rs:348-367 | one character: a match that rewriting surfaces is returned and keeps the flag; an open pair returns nothing; else the check returns the trimmed front up to the last sentence end, under the id of a sentence, exactly when it waited and the character is no whitespace |
| Patterns.PatternPairAggregator.AggregateMatches | flowcat-core/src/agent/text_filter.rs:348-367 | a chunk hands out exactly what the run of the input adds |
| Patterns.PatternPairAggregator.Flush | flowcat-core/src/agent/text_filter.rs:378-381 | the trimmed buffer; an empty buffer keeps its flag |
| Patterns.PatternPairAggregator.Reset | flowcat-core/src/agent/text_filter.rs:382-385 | forgets the input |
| Links.ParsePrint | flowcat-core/src/agent/text_filter.rs:477-502 | reading a text into links undoes printing exactly for the well-formed ones |
| Links.PrintParse | flowcat-core/src/agent/text_filter.rs:477-502 | the reading loses nothing and is always well formed |
| Links.LinkAtIs | flowcat-core/src/agent/text_filter.rs:483-494 | the two searches find a link exactly where one stands |
| Links.CollapseLinks | flowcat-core/src/agent/text_filter.rs:478-502 | the scan gives the text in which every link read gives way to what it shows, and that text is free of links exactly when the reading is quiet at its borders |
| Links.NoLinkLeftIff | flowcat-core/src/agent/text_filter.rs:477-502 | collapsing leaves no link exactly when at no border a closed bracket meets an address, nor an open bracket of a shown text a closing one with an address behind it |
| Links.NestedLinkSurvives | flowcat-core/src/agent/text_filter.rs:477-502 | of two nested links only the inner one is collapsed, for all their texts |
| Vad.VoicedNext | flowcat-core/src/audio/vad.rs:126-167 | while voiced only a full run of silence ends it, and otherwise only a full run of speech begins it |
| Vad.StateNext | flowcat-core/src/audio/vad.rs:126-167 | one window moves the look-back state and the runs as the four-state counter machine does |
| Vad.RunIsTrailing | flowcat-core/src/audio/vad.rs:126-167 | the counted run reaches n exactly when the last n windows agree |
| Vad.VadStateMachine.constructor | flowcat-core/src/audio/vad.rs:77-90 | a new machine has an empty history |
| Vad.VadStateMachine.SetParams | flowcat-core/src/audio/vad.rs:109-116 | the machine is as new under the new parameters |
| Vad.VadStateMachine.Advance | flowcat-core/src/audio/vad.rs:126-167 | state and both counters are the look-back functions of the gated history; a count in use is at least one and below its threshold, so none overflows |
| VadProcessor.FramingIsIrrelevant | flowcat-core/src/audio/vad.rs:396-459 | edge frames, carry and last state depend on the concatenated samples only |
| VadProcessor.EdgesAlternate | flowcat-core/src/audio/vad.rs:396-433 | start and stop edges strictly alternate, a start first, and the last one says the verdict |
| VadProcessor.FramesComeInPairs | flowcat-core/src/audio/vad.rs:405-433 | the frames of every history are two for a start and two for a stop, by turns, a start first |
| VadProcessor.WindowsAreUnique | flowcat-core/src/audio/vad.rs:396-404 | a sample stream can be cut into windows in one way only |
| VadProcessor.EdgeOfStates | flowcat-core/src/audio/vad.rs:405-433 | the test on two successive states finds the change of the look-back verdict |
| VadProcessor.BargeAddsInterruptions | flowcat-core/src/audio/vad.rs:405-433 | barge-in adds to the edge frames only interruptions, one for each start |
| VadProcessor.VadProcessor.AnalyzeWindow | flowcat-core/src/audio/vad.rs:396-433 | two start frames, and an interruption if the bot speaks and barge-in is on, exactly when the verdict turns to speaking; two stop frames exactly when it turns back; the flag counts the interruptions |
| VadProcessor.VadProcessor.DrainWindows | flowcat-core/src/audio/vad.rs:396-433 | every complete window is analysed in order, and less than a window is kept |
| VadProcessor.VadProcessor.ProcessFrame | flowcat-core/src/audio/vad.rs:446-459 | the frame is always forwarded, last; interruptions pushed equal flag increments, which equal the starts seen while the bot speaks with barge-in on |
| Ulaw.QuantizationError | bench-rs/src/bin/io_harness.rs:27-61 | encoding then decoding is off by at most half a cell, itself at most a thirty-second of the biased magnitude |
| Ulaw.ClippedToLoudest | bench-rs/src/bin/io_harness.rs:40-61 | exactly the samples louder than 32635 are clipped, all to the loudest byte of their sign |
| Ulaw.QuantizeMonotone | bench-rs/src/bin/io_harness.rs:27-61 | encoding then decoding keeps order |
| Ulaw.QuantizeOdd | bench-rs/src/bin/io_harness.rs:27-61 | and is odd, for every sample whose negative exists |
| Ulaw.QuantizeIdempotent | bench-rs/src/bin/io_harness.rs:27-61 | and is idempotent |
| Ulaw.Reencode | bench-rs/src/bin/io_harness.rs:27-61 | every byte is encoded back to itself but 0x7F, which becomes 0xFF |
| Ulaw.EncodeFindsCell | bench-rs/src/bin/io_harness.rs:40-61 | the fields of the byte are the sign and the cell of the clipped, biased magnitude |
| Ulaw.EncodeIsOrdered | bench-rs/src/bin/io_harness.rs:40-61 | a louder positive sample never gets a larger byte, all are at least 128, and a negative sample gets the byte of its positive less 128 |
| Ulaw.CellIsUnique | bench-rs/src/bin/io_harness.rs:40-61 | a magnitude lies in one cell only |
| Ulaw.DecodeFits | bench-rs/src/bin/io_harness.rs:27-38 | the decoded magnitude is the middle of a cell and fits 16 bits |
| Ulaw.HighestBit | bench-rs/src/bin/io_harness.rs:53-58 | the mask loop finds the segment |
| Ulaw.UlawEncodeSample | bench-rs/src/bin/io_harness.rs:40-61 | the whole encoder computes the byte of sign, segment and cell |
| Ulaw.LeRoundTrip | bench-rs/src/bin/io_harness.rs:64-78 | the little-endian byte layer loses nothing either way, and the high byte counts 256 |
| Ulaw.UlawToPcm | bench-rs/src/bin/io_harness.rs:64-70 | every byte becomes its decoded sample, low byte first |
| Ulaw.PcmToUlaw | bench-rs/src/bin/io_harness.rs:72-78 | every sample becomes its byte, and an odd last byte is dropped |
| Ulaw.Echo | bench-rs/src/bin/io_harness.rs:92-96 | a frame comes back unchanged but for 0x7F, which becomes 0xFF |
| Ulaw.Transcode | bench-rs/src/bin/io_harness.rs:64-78 | a stored buffer sent through both directions is quantised sample by sample |
| Ulaw.TranscodeTwice | bench-rs/src/bin/io_harness.rs:64-78 | a second pass over a stored buffer changes no byte |
| Recorder.ChunkStandsAtSlot | flowcat-core/src/audio/mod.rs:220-270 | every chunk's samples stand exactly from round(offset * rate) on, whatever was pushed before or after |
| Recorder.RoundIsNearest | flowcat-core/src/audio/mod.rs:237-270 | rounding goes to the nearest whole number, halves up, and to zero below zero |
| Recorder.SlotIsNearest | flowcat-core/src/audio/mod.rs:237-270 | a slot is at most half a sample from the time it stands for |
| Recorder.SlotsApart | flowcat-core/src/audio/mod.rs:220-270 | chunks of a leg do not overlap |
| Recorder.GapsAreSilent | flowcat-core/src/audio/mod.rs:237-270 | every sample that no chunk covers is zero |
| Recorder.RenderedLength | flowcat-core/src/audio/mod.rs:237-270 | a leg's length is its end time in samples, so nothing drifts |
| Recorder.LengthLawHoldsIff | flowcat-core/src/audio/mod.rs:237-270 | that law holds exactly at a positive rate or for an empty leg |
| Recorder.MixLength | flowcat-core/src/audio/mod.rs:158-180 | the mixed length is the call's duration in samples |
| Recorder.ClampIsNearest | flowcat-core/src/audio/mod.rs:169-191 | a mixed sample is the 16-bit value nearest to the sum |
| Recorder.AudioRecorder.PushInboundAt | flowcat-core/src/audio/mod.rs:141-146 | an empty chunk is dropped, any other goes to its arrival time or the end of the leg, never before either |
| Recorder.AudioRecorder.PushOutboundAt | flowcat-core/src/audio/mod.rs:149-154 | the same on the other leg |
| Recorder.AudioRecorder.RenderMix | flowcat-core/src/audio/mod.rs:169-191 | the clamped sum of both legs, silence after the shorter, as long as the call |
| Recorder.RenderLeg | flowcat-core/src/audio/mod.rs:237-270 | the loop lays out the chunks one after the other |
| Resampling.ChunkingIsIrrelevant | flowcat-core/src/codec.rs:184-235 | every chunking of a stream gives the filter's output over the consecutive 256-sample blocks of the whole stream |
| Resampling.RunConcat | flowcat-core/src/codec.rs:184-235 | running on after a stream is running over its remainder and what follows |
| Resampling.RunIsBlockwise | flowcat-core/src/codec.rs:201-232 | the output is what the filter gives block by block, each block of 256 in the state the one before it left |
| Resampling.RestIs | flowcat-core/src/codec.rs:201-232 | what is carried is the end of the stream behind whole blocks, shorter than a block |
| Resampling.Create | flowcat-core/src/codec.rs:126-176 | refused exactly when a rate is zero; equal rates make a pass-through |
| Resampling.Resampler.Process | flowcat-core/src/codec.rs:184-235 | a chunk at another rate is refused and changes nothing; any other keeps state, output and carry functions of the whole input, the carry its last (length mod 256) samples |
| Resampling.Resampler.RunBlocks | flowcat-core/src/codec.rs:201-232 | the loop consumes the whole blocks of the buffer and keeps the rest |
| Resampling.Resampler.Flush | flowcat-core/src/codec.rs:244-273 | emits exactly the zero-padded remainder, once |
| Template.ParsePrint | flowcat-agent/src/engine.rs:567-597 | reading a template undoes printing exactly for well-formed templates: literals without a doubled or final `{`, placeholders without a doubled or final `}` |
| Template.PrintParse | flowcat-agent/src/engine.rs:567-597 | the reading loses nothing and is always well formed |
| Template.RenderOfHoles | flowcat-agent/src/engine.rs:567-597 | with every placeholder standing for itself, rendering gives the template back |
| Template.Unterminated | flowcat-agent/src/engine.rs:587-591 | after an unterminated `{{` everything is literal |
| Template.UnescapePiecewise | flowcat-agent/src/engine.rs:596-596 | the escape pass works piece by piece exactly when no border forms an escape |
| Template.UnescapeReplaces | flowcat-agent/src/engine.rs:596-596 | each escape, wherever it stands, becomes one newline and nothing around it changes |
| Template.UnescapeKeeps | flowcat-agent/src/engine.rs:596-596 | a text without the escape is left alone |
| Template.RenderPiecewise | flowcat-agent/src/engine.rs:567-597 | for every template and resolution the pass gives the concatenation of unescaped literals and values exactly when no border joins, empty pieces counted through |
| Template.VarInterpolateAt | flowcat-agent/src/engine.rs:567-597 | the scan ends and gives literals and resolved values in order, values never scanned again, before the escape pass |
| Template.GetNested | flowcat-agent/src/engine.rs:684-695 | returns the one value at the end of the dotted path, and nothing exactly when there is none |
| Template.SplitJoin | flowcat-agent/src/engine.rs:684-686 | splitting a path at its dots loses nothing and leaves no dot in a part |
| Template.StepIs | flowcat-agent/src/engine.rs:684-695 | a key leads to its field, an index to the item at that place, and nothing leads out of a leaf |
| Template.PlusIsReadOver | flowcat-agent/src/engine.rs:690-690 | an index may begin with one plus sign |
| Engines.IndexReadBack | flowcat-agent/src/engine.rs:690-690 | a number written in decimal is read as that index |
| Template.FallbackSpellings | flowcat-agent/src/engine.rs:667-677 | the plain and the legacy spelling of a fallback agree exactly when the plain text does not look like the legacy one |
| Template.NoFallback | flowcat-agent/src/engine.rs:667-677 | without a bar there is no fallback, and the trimmed body is the path |
| Template.ResolvePlaceholder | flowcat-agent/src/engine.rs:667-681 | a reachable value that is neither null nor empty is shown; the fallback, or nothing, in every other case |
| Template.InterpolationKeepsPaths | flowcat-agent/src/engine.rs:648-664 | interpolating a whole JSON value: a path leads somewhere in the result exactly when it does in the template, and to what its end becomes |
| Template.InterpolatedAt | flowcat-agent/src/engine.rs:648-664 | at the end of any path: a text is interpolated, other leaves stay, arrays keep their length and objects their keys |
| Graphs.Parse | flowcat-agent/src/graph.rs:164-202 | a graph with a start node, known edge ends and a correct index; otherwise no start exists, or the first edge with a missing end is named, source first |
| Graphs.TableIsUnique | flowcat-agent/src/graph.rs:168-171 | a list of nodes has one table, the last node of an id winning |
| Graphs.Index | flowcat-agent/src/graph.rs:184-193 | the index lists for every node exactly the positions of its edges in order |
| Graphs.Outgoing | flowcat-agent/src/graph.rs:282-287 | through the index, the edges a plain scan finds, in declaration order |
| Graphs.PositionsPickFrom | flowcat-agent/src/graph.rs:184-193 | picking the indexed positions is filtering the edges |
| Graphs.PositionsAreExact | flowcat-agent/src/graph.rs:184-193 | the positions of a node are exactly those of its edges, in rising order |
| Graphs.IntoCounts | flowcat-agent/src/graph.rs:212-221 | the edges into a node are as many as positions with that target |
| Graphs.FromIsExact | flowcat-agent/src/graph.rs:282-287 | the plain scan finds exactly the edges with that source |
| Graphs.Degrees | flowcat-agent/src/graph.rs:212-221 | both degree counters equal edge counts |
| Graphs.NothingBrokenIffWithin | flowcat-agent/src/graph.rs:67-89 | the bounds table says what the catalog rules say |
| Graphs.BrokenSays | flowcat-agent/src/graph.rs:67-89 | for every kind and every degree: which rules are named, each once, incoming ones first |
| Graphs.OfCounts | flowcat-agent/src/graph.rs:211-269 | a node gets a rule as often as the two are reported together |
| Graphs.CardinalityErrors | flowcat-agent/src/graph.rs:211-269 | a rule is reported for a node once if the node breaks it and never otherwise, the rules of a node in order; nothing is reported exactly when all nodes keep their bounds |
| Engines.RunIsAWalk | flowcat-agent/src/engine.rs:163-209 | without cardinality errors every run follows edges, enters no start, trigger, global, webhook, QA or tuner node, is at the start node only until its first move, and never leaves an end node |
| Engines.StaysForeverIff | flowcat-agent/src/engine.rs:420-440 | a node answers Stay to every name exactly when no edge leaves it |
| Engines.EndStays | flowcat-agent/src/engine.rs:420-440 | at an end node of such a graph every call returns Stay and moves nothing |
| Engines.NextIs | flowcat-agent/src/engine.rs:420-440 | the edge followed is the first one of the name asked for, End is reported exactly when its target is an end node, and the engine stays exactly when no edge has the name |
| Engines.NextFollowsAnEdge | flowcat-agent/src/engine.rs:420-440 | one transition follows an edge to an existing node, and reports End exactly at end nodes |
| Engines.WhoCanBeTaken | flowcat-agent/src/engine.rs:307-335 | an edge can be asked for exactly when no earlier edge of its node has its name; an unlabelled one can only be hidden by a label |
| Engines.UnlabelledNamesDiffer | flowcat-agent/src/engine.rs:326-331 | generated transition names differ |
| Engines.TransitionNameIs | flowcat-agent/src/engine.rs:326-331 | an edge is named by its label, else by a fixed word and its number in decimal without leading zeros |
| Engines.OpeningIsInGraph | flowcat-agent/src/engine.rs:190-209 | a run begins at the start node or one edge after it |
| Engines.OpeningIs | flowcat-agent/src/engine.rs:190-209 | the start node is kept exactly for a prompt that is not all whitespace or for want of an edge; else its first edge is taken |
| Engines.ResumeContinues | flowcat-agent/src/engine.rs:214-222 | a run resumed at a persisted node goes on as the original would have |
| Engines.FirstVisitsAreExact | flowcat-agent/src/engine.rs:252-257 | the visited list has no duplicates, misses nothing, and is in order of first appearance |
| Engines.Engine.constructor | flowcat-agent/src/engine.rs:163-181 | a new engine sits at the opening node, which it has visited |
| Engines.Engine.AdvanceThroughStart | flowcat-agent/src/engine.rs:190-209 | a start node without a prompt, or with one of whitespace only, is skipped along its first edge if it has one |
| Engines.Engine.RecordVisit | flowcat-agent/src/engine.rs:252-257 | appends the active node's display name, or its id if it has none, unless it is there |
| Engines.Engine.OnTransition | flowcat-agent/src/engine.rs:420-440 | moves to the target of the first edge of that name and reports End or the transition; stays exactly when no edge has the name; the visited list only grows, by at most one, and holds the active name |
| Engines.Engine.SetCurrentNode | flowcat-agent/src/engine.rs:214-222 | seats the engine at any known node and refuses an unknown one without change |
| Engines.Engine.Capture | flowcat-agent/src/engine.rs:527-531 | extracted variables win over earlier ones and nothing else changes |
| Engines.Resume | flowcat-agent/src/engine.rs:534-540 | a snapshot resumed in a new engine gives the same snapshot |
| Navigation.GreedyIsComplete | flowcat-core/src/agent/ivr.rs:184-201 | the cursor reaches m exactly when some strictly increasing assignment of prompts matches the first m steps |
| Navigation.PatientRunCompletesIff | flowcat-core/src/agent/ivr.rs:166-211 | with stuck_after 0 a non-empty script completes exactly when some assignment matches every step |
| Navigation.ImpatientRunCompletesIff | flowcat-core/src/agent/ivr.rs:166-211 | with a positive limit a non-empty script completes exactly when taking the first match for every step never waits for that many prompts |
| Navigation.MovesAreMatches | flowcat-core/src/agent/ivr.rs:184-201 | the cursor moves at the first match after its last move |
| Navigation.ImpatienceCanMissAssignments | flowcat-core/src/agent/ivr.rs:203-211 | with a positive limit it may get stuck although an assignment exists |
| Navigation.StreakDecides | flowcat-core/src/agent/ivr.rs:203-206 | the streak reaches the limit exactly when that many last prompts moved nothing |
| Navigation.ActionsCarryNoStatus | flowcat-core/src/agent/ivr.rs:148-157 | step actions are never status frames |
| Navigation.ActionsReadBack | flowcat-core/src/agent/ivr.rs:148-157 | what any script puts out reads back as its actions, every digit and every reply in place, waits aside |
| Navigation.Navigator.EmittedFollowsScript | flowcat-core/src/agent/ivr.rs:166-211 | in every state the keys pressed and the replies given so far are those of the steps behind the cursor, in order |
| Navigation.MatchesIff | flowcat-core/src/agent/ivr.rs:70-72 | a prompt matches a step wherever in it some trigger stands |
| Navigation.Navigator.StepMatches | flowcat-core/src/agent/ivr.rs:70-72 | true exactly when some trigger stands in the prompt |
| Navigation.Navigator.ProcessFrame | flowcat-core/src/agent/ivr.rs:166-211 | the frame is forwarded first; a prompt that matches the step at the cursor adds its digits or its reply, or nothing for a wait, and Completed behind the last step; any other adds only Stuck, exactly when the limit is reached; a finished navigator adds nothing |
| WakeWords.TokensTokenize | flowcat-core/src/agent/wakeword.rs:155-167 | the tokens are the maximal runs of non-whitespace, all of them, with their true starts |
| WakeWords.WordOffsets | flowcat-core/src/agent/wakeword.rs:155-167 | looking every word up from the end of the one before finds those tokens |
| WakeWords.FindPhrase | flowcat-core/src/agent/wakeword.rs:138-149 | the leftmost place where a phrase stands as whole consecutive tokens |
| WakeWords.MatchWake | flowcat-core/src/agent/wakeword.rs:130-152 | nothing exactly when no non-empty phrase stands anywhere, else the leftmost place of the first configured phrase that does |
| WakeWords.WakeIsUnique | flowcat-core/src/agent/wakeword.rs:130-152 | that place is determined |
| WakeWords.TokensApart | flowcat-core/src/agent/wakeword.rs:155-167 | texts with a clean border are tokenized apart |
| WakeWords.SpokenJoined | flowcat-core/src/agent/wakeword.rs:210-215 | gathering transcripts concatenates their words; none fuse |
| WakeWords.JoinedIs | flowcat-core/src/agent/wakeword.rs:210-215 | one space is put between two transcripts exactly when the first is not empty and does not end in whitespace; nothing else is added |
| WakeWords.StoredIsQuiet | flowcat-core/src/agent/wakeword.rs:208-241 | no stored text ever holds a wake phrase, and an open gate stores nothing |
| WakeWords.Gathers | flowcat-core/src/agent/wakeword.rs:208-241 | until a phrase is complete everything is withheld and every word is kept |
| WakeWords.OpensAtFirstCompletion | flowcat-core/src/agent/wakeword.rs:208-241 | a phrase spread over several transcripts opens a shut gate at the first one that completes it; what passes is every word heard from the phrase on, and the gate is then open since that moment |
| WakeWords.OpeningPasses | flowcat-core/src/agent/wakeword.rs:216-236 | an opening gate passes the end of the gathered text from the first character of the wake phrase on, all words from the phrase on, and is then open since now with nothing stored |
| WakeWords.GatedStartsWithPhrase | flowcat-core/src/agent/wakeword.rs:216-236 | what an opening gate lets through starts with a wake phrase |
| WakeWords.StaysOpen | flowcat-core/src/agent/wakeword.rs:199-206 | an open gate passes everything unchanged, for any number of transcripts, while no pause reaches the keepalive |
| WakeWords.PauseShuts | flowcat-core/src/agent/wakeword.rs:199-207 | a pause of the keepalive or more shuts the gate: what follows passes exactly when it holds a phrase itself |
| WakeWords.SeparateStep | flowcat-core/src/agent/wakeword.rs:175-243 | one more transcript leaves every speaker's state and outputs those of a run on that speaker's transcripts alone |
| WakeWords.WakeCheckFilter.ProcessFrame | flowcat-core/src/agent/wakeword.rs:175-243 | other frames pass; a transcript changes its own speaker's state only; it passes exactly when that gate answers, with the answer as its text and all else as it was |
| WakeWords.WakeCheckFilter.Turn | flowcat-core/src/agent/wakeword.rs:199-241 | the statements on one speaker's record compute the gate step |
| Latch.LatchedStep | flowcat-core/src/audio/strategy.rs:231-255 | how a flag told by its whole history changes with one event |
| TurnStrategies.Step | flowcat-core/src/audio/strategy.rs:231-271 | how speaking, text, final transcript and completion follow the history |
| TurnStrategies.TimeoutStep | flowcat-core/src/audio/strategy.rs:257-262 | how the two timeouts follow the history |
| TurnStrategies.AnalyzerStaysReady | flowcat-core/src/audio/strategy.rs:217-271 | a ready turn stays ready exactly until a new start, a reset or a withdrawn prediction |
| TurnStrategies.TimeoutStaysReady | flowcat-core/src/audio/strategy.rs:304-366 | a ready turn stays ready exactly until a new start or a reset |
| TurnStrategies.LongFloorSettles | flowcat-core/src/audio/strategy.rs:304-358 | when the speech floor is at least the transcript wait, the second wait decides nothing |
| TurnStrategies.AnalyzerReadyIff | flowcat-core/src/audio/strategy.rs:217-271 | by positions in the history: nobody talks, text has come since the last reset, the analyzer's last word in this turn is that it is complete, and a final transcript or a long enough silence lies in this turn |
| TurnStrategies.TimeoutReadyIff | flowcat-core/src/audio/strategy.rs:304-366 | by positions in the history: nobody talks, text has come since the last reset, and both waits have ended in this turn |
| TurnStrategies.SettledIff | flowcat-core/src/audio/strategy.rs:317-358 | what ends the transcript wait: a long enough silence, a final transcript, or a stop which follows one or has itself waited |
| TurnStrategies.TurnAnalyzerStop.Evaluate | flowcat-core/src/audio/strategy.rs:217-227 | triggered exactly when the history has text, no ongoing speech, a standing completion, and a final transcript or a timeout since the last start |
| TurnStrategies.TurnAnalyzerStop.OnFrame | flowcat-core/src/audio/strategy.rs:231-255 | the fields follow the history; only a stop or a transcript can trigger, and does when the condition holds |
| TurnStrategies.TurnAnalyzerStop.OnSilenceTick | flowcat-core/src/audio/strategy.rs:257-262 | the same for a tick |
| TurnStrategies.TurnAnalyzerStop.SetTurnComplete | flowcat-core/src/audio/strategy.rs:212-215 | the same for a prediction |
| TurnStrategies.TurnAnalyzerStop.ResetTurn | flowcat-core/src/audio/strategy.rs:264-270 | the same for a reset |
| TurnStrategies.SpeechTimeoutStop.Evaluate | flowcat-core/src/audio/strategy.rs:304-313 | triggered exactly when the history has text, no ongoing speech, and both waits over since the last start |
| TurnStrategies.SpeechTimeoutStop.OnFrame | flowcat-core/src/audio/strategy.rs:317-346 | the fields follow the history; only a stop or a transcript can trigger, and does when the condition holds |
| TurnStrategies.SpeechTimeoutStop.OnSilenceTick | flowcat-core/src/audio/strategy.rs:348-358 | the same for a tick |
| TurnStrategies.SpeechTimeoutStop.ResetTurn | flowcat-core/src/audio/strategy.rs:360-366 | the same for a reset |
| TurnStrategies.InFlightStep | flowcat-core/src/audio/strategy.rs:445-461 | how a call's latest event follows the history |
| TurnStrategies.InFlightIff | flowcat-core/src/audio/strategy.rs:445-461 | a call is in flight when it was started and neither answered nor cancelled since |
| TurnStrategies.FunctionCallMute.OnFrame | flowcat-core/src/audio/strategy.rs:445-461 | muted exactly when some call's most recent event is a start |
| TurnStrategies.FunctionCallMute.Muted | flowcat-core/src/audio/strategy.rs:462-464 | the same without an event |
| AudioHook.RepliesAreNumbered | flowcat-telephony/src/genesys.rs:95-111 | the i-th reply ever queued carries number i, with the client number and session id as they stood at a message of its kind |
| AudioHook.EveryRequestIsAnswered | flowcat-telephony/src/genesys.rs:155-183 | every open, ping and close has its own reply, an opened, a pong or a hang-up respectively, numbered after the replies before it |
| AudioHook.ReplyKindIs | flowcat-telephony/src/genesys.rs:155-183 | an open is answered by opened, a ping by pong, a close by the hang-up, and nothing else by any of them |
| AudioHook.RecordStep | flowcat-telephony/src/genesys.rs:139-183 | how client number, session id and replies follow one more message |
| AudioHook.GateStep | flowcat-telephony/src/genesys.rs:155-196 | how open and paused follow the history |
| AudioHook.OpenedFlowsIff | flowcat-telephony/src/genesys.rs:113-125 | audio flows after an open exactly when no pause is left over |
| AudioHook.PauseSurvivesReopening | flowcat-telephony/src/genesys.rs:113-125 | a session that is paused although its reply announced otherwise |
| AudioHook.GenesysSerializer.OnMessage | flowcat-telephony/src/genesys.rs:139-200 | audio passes exactly while the latest of open and close is an open and the latest of pause and resume is no pause; each open, ping and close gets one reply; what is reported for each message |
| AudioHook.GenesysSerializer.TakeResponses | flowcat-telephony/src/genesys.rs:91-93 | what has been drained and what is pending are together all replies, each drained once |

## Left out

- Strings are sequences of characters: byte offsets and UTF-8 lengths are character offsets and lengths here.
- Lower-casing is a parameter that keeps lengths and whitespace; Unicode case mappings that change lengths are not modelled.
- Recorder.AudioRecorder.RenderMix: chunks at a rate other than the recorder's, whose place depends on the latency of the resampler, and the WAV header and file are not modelled.
- Recorder.RenderLeg: the same restriction to chunks at the recorder's rate, so the resampler kept for each other rate and its flush at the end are not modelled.
- Recorder.SampleAt: seconds and products are exact reals where the source uses f64.
- Resampling.Resampler.Process: the filter is any function of its state and a block; the library's own errors and the scaling to and from f32 are inside it.
- Vad.VadStateMachine.Advance: confidence, volume and thresholds are exact reals, and the debounce thresholds are given as positive integers; their computation from seconds by `recompute_debounce` rounds floats.
- VadProcessor.VadProcessor.ProcessFrame: the payload of the edge frames, the optional waker and the atomic counter's memory order are not modelled, and the optional interruption counter is always present; the speech model is any function of the windows so far.
- ChannelPipeline.Drive: frames are not dropped or cloned by cost, and tokio's own scheduling is replaced by an arbitrary one.
- Patterns.Process: asks for pattern lists on which the source ends for every text (`Patterns.EndsIffSound`); on other lists a single call may still end, and is not modelled.
- Template.VarInterpolateAt: resolution is a parameter; the time builtins that come before it, time zones and the JSON printing of arrays and objects are not modelled.
- Engines.Engine.OnTransition: the slug of a label is part of the edge; `slugify`, prompt wording, transfer targets and extraction settings are not modelled.
- Engines.Engine.SetCurrentNode: a snapshot does not carry the visited list, so a resumed engine begins it anew, as in the source.
- Graphs.FindKind: when several nodes are start or global nodes the source takes whichever its hash map yields first; here any of them may be taken.
- Graphs.CardinalityErrors: errors name the rule and the node instead of an English sentence, and nodes come in an arbitrary order.
- AudioHook.GenesysSerializer.OnMessage: a JSON text is given by the fields the source reads; audio stays mu-law bytes, since the codec there is a library.
- `MarkdownTextFilter` beyond link collapsing, the frame processors around aggregators and filters, and the remaining turn-start, mute and interruption strategies: single-branch rules.
- Carrier serializers other than Genesys, transports, provider and MCP clients, configuration and storage: input and output over libraries that are not part of this model.
