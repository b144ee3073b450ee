/**
 Wake-word gating (flowcat-core/src/agent/wakeword.rs): tokens, phrase matching, and the gate each
 speaker has.
 */
module WakeWords {
  import opened Text

  // ---------------------------------------------------------------- tokens

  predicate NoSpace(w: string) {
    forall i :: 0 <= i < |w| ==> !IsWhitespace(w[i])
  }

  /** Only whitespace in `s` between `i` and `j`. */
  predicate Blank(s: string, i: nat, j: nat)
    requires i <= j <= |s|
  {
    forall k :: i <= k < j ==> IsWhitespace(s[k])
  }

  /** Nothing of a next word can be glued to the end of `s`. */
  predicate Closed(s: string) {
    s == "" || IsWhitespace(s[|s| - 1])
  }

  /** The words once a character is added to a text that was closed or not. */
  function Glued(words: seq<string>, c: char, closed: bool): (more: seq<string>)
    requires closed || words != []
    ensures !IsWhitespace(c) || words != [] ==> more != []
  {
    if IsWhitespace(c) then words
    else if closed then words + [[c]]
    else words[..|words| - 1] + [words[|words| - 1] + [c]]
  }

  /** `split_whitespace` */
  function Words(s: string): (words: seq<string>)
    ensures !Closed(s) ==> words != []
  {
    if s == "" then []
    else
      var front := s[..|s| - 1];
      Glued(Words(front), s[|s| - 1], Closed(front))
  }

  datatype Token = Token(at: nat, word: string)

  /** The tokens once a character at position `at` is added to a text that was closed or not. */
  function Extended(tokens: seq<Token>, at: nat, c: char, closed: bool): (more: seq<Token>)
    requires closed || tokens != []
    ensures !IsWhitespace(c) || tokens != [] ==> more != []
  {
    if IsWhitespace(c) then tokens
    else if closed then tokens + [Token(at, [c])]
    else
      var last := tokens[|tokens| - 1];
      tokens[..|tokens| - 1] + [last.(word := last.word + [c])]
  }

  /** The words with the positions at which they start. */
  function Tokens(s: string): (tokens: seq<Token>)
    ensures !Closed(s) ==> tokens != []
  {
    if s == "" then []
    else
      var front := s[..|s| - 1];
      Extended(Tokens(front), |front|, s[|s| - 1], Closed(front))
  }

  function EndOf(t: Token): nat {
    t.at + |t.word|
  }

  /** Where the token before the `k`th one ends. */
  function EndBefore(tokens: seq<Token>, k: nat): nat
    requires k <= |tokens|
  {
    if k == 0 then 0 else EndOf(tokens[k - 1])
  }

  /** A maximal run of non-whitespace, with whitespace back to the token before it. */
  ghost predicate IsToken(s: string, tokens: seq<Token>, k: nat)
    requires k < |tokens|
  {
    var t := tokens[k];
    && t.word != "" && NoSpace(t.word)
    && EndBefore(tokens, k) <= t.at && (k > 0 ==> EndBefore(tokens, k) < t.at)
    && EndOf(t) <= |s| && s[t.at..EndOf(t)] == t.word
    && Blank(s, EndBefore(tokens, k), t.at)
  }

  /** The tokens of `s`, all of them, in order. */
  ghost predicate Tokenizes(s: string, tokens: seq<Token>) {
    && (forall k :: 0 <= k < |tokens| ==> IsToken(s, tokens, k))
    && EndBefore(tokens, |tokens|) <= |s|
    && Blank(s, EndBefore(tokens, |tokens|), |s|)
  }

  lemma {:induction false} TokensTokenize(s: string)
    ensures Tokenizes(s, Tokens(s))
  {
    if s != "" {
      var front, c := s[..|s| - 1], s[|s| - 1];
      TokensTokenize(front);
      assert s == front + [c];
      ExtendedTokenizes(front, Tokens(front), c);
    }
  }

  /** A token stays one when text is added behind it that leaves it its end. */
  lemma {:induction false} TokenStays(s: string, more: string, tokens: seq<Token>, others: seq<Token>, k: nat)
    requires k < |tokens| && k < |others| && tokens[..k + 1] == others[..k + 1]
    requires IsToken(s, tokens, k) && s <= more
    ensures IsToken(more, others, k)
  {
    var t := tokens[k];
    assert tokens[..k + 1][k] == others[..k + 1][k];
    if k > 0 { assert tokens[..k + 1][k - 1] == others[..k + 1][k - 1]; }
    assert more[t.at..EndOf(t)] == s[t.at..EndOf(t)];
  }

  lemma {:induction false} LastTokenEnds(s: string, tokens: seq<Token>)
    requires Tokenizes(s, tokens)
    ensures !Closed(s) ==> tokens != [] && EndOf(tokens[|tokens| - 1]) == |s|
    ensures Closed(s) && tokens != [] ==> EndOf(tokens[|tokens| - 1]) < |s|
  {
    if tokens != [] {
      var t := tokens[|tokens| - 1];
      assert IsToken(s, tokens, |tokens| - 1);
      assert t.word[|t.word| - 1] == s[t.at..EndOf(t)][|t.word| - 1] == s[EndOf(t) - 1];
    }
  }

  lemma {:induction false} ExtendedTokenizes(s: string, tokens: seq<Token>, c: char)
    requires Tokenizes(s, tokens)
    ensures Closed(s) || tokens != []
    ensures Tokenizes(s + [c], Extended(tokens, |s|, c, Closed(s)))
  {
    hide IsToken;
    hide IsWhitespace;
    LastTokenEnds(s, tokens);
    var more, n := s + [c], |tokens|;
    var others := Extended(tokens, |s|, c, Closed(s));
    var kept := if IsWhitespace(c) || Closed(s) then n else n - 1;
    forall k | 0 <= k < kept ensures IsToken(more, others, k) {
      assert tokens[..k + 1] == others[..k + 1];
      TokenStays(s, more, tokens, others, k);
    }
    if !IsWhitespace(c) {
      if Closed(s) { TokenStarts(s, tokens, c); } else { TokenGrows(s, tokens, c); }
    }
  }

  lemma {:induction false} TokenGrows(s: string, tokens: seq<Token>, c: char)
    requires Tokenizes(s, tokens) && !IsWhitespace(c) && !Closed(s)
    ensures tokens != [] && EndOf(tokens[|tokens| - 1]) == |s|
    ensures IsToken(s + [c], Extended(tokens, |s|, c, false), |tokens| - 1)
  {
    LastTokenEnds(s, tokens);
    hide IsWhitespace;
    var others, n := Extended(tokens, |s|, c, false), |tokens|;
    var t := tokens[n - 1];
    assert IsToken(s, tokens, n - 1);
    assert (s + [c])[t.at..EndOf(t) + 1] == s[t.at..EndOf(t)] + [c];
    assert EndBefore(others, n - 1) == EndBefore(tokens, n - 1);
  }

  lemma {:induction false} TokenStarts(s: string, tokens: seq<Token>, c: char)
    requires Tokenizes(s, tokens) && !IsWhitespace(c) && Closed(s)
    ensures IsToken(s + [c], Extended(tokens, |s|, c, true), |tokens|)
  {
    LastTokenEnds(s, tokens);
    hide IsWhitespace;
    var others, n := Extended(tokens, |s|, c, true), |tokens|;
    assert EndBefore(others, n) == EndBefore(tokens, n);
    assert (s + [c])[|s|..|s| + 1] == [c];
  }

  function Texts(tokens: seq<Token>): seq<string> {
    seq(|tokens|, i requires 0 <= i < |tokens| => tokens[i].word)
  }

  lemma {:induction false} TextsOfExtended(tokens: seq<Token>, at: nat, c: char, closed: bool)
    requires closed || tokens != []
    ensures Texts(Extended(tokens, at, c, closed)) == Glued(Texts(tokens), c, closed)
  {
  }

  lemma {:induction false} WordsAreTexts(s: string)
    ensures Words(s) == Texts(Tokens(s))
  {
    hide IsWhitespace, Glued, Extended;
    if s != "" {
      var front := s[..|s| - 1];
      WordsAreTexts(front);
      TextsOfExtended(Tokens(front), |front|, s[|s| - 1], Closed(front));
    }
  }

  /** `word_offsets`: looking each word up from the end of the one before finds its true start. */
  method WordOffsets(s: string) returns (out: seq<Token>)
    ensures out == Tokens(s) && Tokenizes(s, out)
  {
    hide Tokens;
    hide Words;
    var words := Words(s);
    WordsAreTexts(s);
    TokensTokenize(s);
    out := [];
    var idx := 0;
    for n := 0 to |words|
      invariant out == Tokens(s)[..n] && idx == EndBefore(Tokens(s), n) <= |s|
    {
      var word := words[n];
      TokenIsFound(s, Tokens(s), n);
      var rel := Find(s[idx..], word, 0);
      if rel.Some? {
        var at := idx + rel.value;
        out := out + [Token(at, word)];
        idx := at + |word|;
      }
    }
  }

  lemma {:induction false} TokenIsFound(s: string, tokens: seq<Token>, n: nat)
    requires n < |tokens| && Tokenizes(s, tokens)
    ensures var idx := EndBefore(tokens, n);
            idx <= tokens[n].at && EndOf(tokens[n]) <= |s|
            && Find(s[idx..], tokens[n].word, 0) == Some(tokens[n].at - idx)
  {
    assert IsToken(s, tokens, n);
    var idx, t := EndBefore(tokens, n), tokens[n];
    var tail := s[idx..];
    assert tail[t.at - idx..t.at - idx + |t.word|] == s[t.at..EndOf(t)];
    forall i: nat | i < t.at - idx ensures !OccursAt(tail, t.word, i) {
      assert IsWhitespace(s[idx + i]) && !IsWhitespace(t.word[0]);
      if i + |t.word| <= |tail| { assert tail[i..i + |t.word|][0] == s[idx + i]; }
    }
    FindIs(tail, t.word, 0, t.at - idx);
  }

  function Shift(tokens: seq<Token>, offset: nat): seq<Token> {
    seq(|tokens|, i requires 0 <= i < |tokens| => Token(tokens[i].at + offset, tokens[i].word))
  }

  lemma {:induction false} ExtendedApart(ours: seq<Token>, tokens: seq<Token>, shift: nat, at: nat, c: char,
                                         closed: bool)
    requires closed || tokens != []
    ensures Extended(ours + Shift(tokens, shift), shift + at, c, closed)
            == ours + Shift(Extended(tokens, at, c, closed), shift)
  {
    var all := ours + Shift(tokens, shift);
    if !closed {
      var n := |tokens| - 1;
      assert all[..|all| - 1] == ours + Shift(tokens[..n], shift);
      assert all[|all| - 1] == Token(tokens[n].at + shift, tokens[n].word);
    }
  }

  lemma {:induction false} TokensStep(s: string, c: char)
    ensures Closed(s) || Tokens(s) != []
    ensures Tokens(s + [c]) == Extended(Tokens(s), |s|, c, Closed(s))
  {
    assert (s + [c])[..|s|] == s;
  }

  /** Across a clean border texts are tokenized apart. */
  lemma {:induction false} TokensApart(a: string, b: string)
    requires Closed(a)
    ensures Tokens(a + b) == Tokens(a) + Shift(Tokens(b), |a|)
    decreases |b|
  {
    hide Extended;
    hide IsWhitespace;
    if b == "" {
      hide Tokens;
      assert a + b == a;
      assert Tokens(b) == [] by { NoTokens(); }
    } else {
      hide Tokens;
      var front, c := b[..|b| - 1], b[|b| - 1];
      TokensApart(a, front);
      TokensStep(a + front, c);
      TokensStep(front, c);
      assert a + b == a + front + [c] && b == front + [c];
      assert Closed(a + front) <==> Closed(front);
      ExtendedApart(Tokens(a), Tokens(front), |a|, |front|, c, Closed(front));
    }
  }

  lemma {:induction false} NoTokens()
    ensures Tokens("") == []
  {
  }

  lemma {:induction false} WordsApart(a: string, b: string)
    requires Closed(a)
    ensures Words(a + b) == Words(a) + Words(b)
  {
    hide Tokens;
    hide Words;
    WordsAreTexts(a + b);
    WordsAreTexts(a);
    WordsAreTexts(b);
    TokensApart(a, b);
  }

  // ---------------------------------------------------------------- phrases

  /** The phrase stands at the `k`th of these words, word for word. */
  predicate StandsAt(words: seq<string>, phrase: seq<string>, k: nat) {
    k + |phrase| <= |words| && words[k..k + |phrase|] == phrase
  }

  ghost predicate Stands(words: seq<string>, phrase: seq<string>) {
    exists k: nat :: StandsAt(words, phrase, k)
  }

  /** Some non-empty phrase stands among the words. */
  ghost predicate Wakes(phrases: seq<seq<string>>, words: seq<string>) {
    exists p :: p in phrases && p != [] && Stands(words, p)
  }

  /** `k` is the leftmost place of the first configured phrase that stands anywhere. */
  ghost predicate IsWake(phrases: seq<seq<string>>, words: seq<string>, k: nat) {
    exists n :: 0 <= n < |phrases| && IsWakeBy(phrases, words, k, n)
  }

  ghost predicate IsWakeBy(phrases: seq<seq<string>>, words: seq<string>, k: nat, n: nat)
    requires n < |phrases|
  {
    && phrases[n] != [] && StandsAt(words, phrases[n], k)
    && (forall j: nat :: j < k ==> !StandsAt(words, phrases[n], j))
    && (forall m :: 0 <= m < n && phrases[m] != [] ==> !Stands(words, phrases[m]))
  }

  lemma {:induction false} WakeIsUnique(phrases: seq<seq<string>>, words: seq<string>, k: nat, l: nat)
    requires IsWake(phrases, words, k) && IsWake(phrases, words, l)
    ensures k == l
  {
    var n :| 0 <= n < |phrases| && IsWakeBy(phrases, words, k, n);
    var m :| 0 <= m < |phrases| && IsWakeBy(phrases, words, l, m);
    assert Stands(words, phrases[n]) && Stands(words, phrases[m]);
  }

  function Lower(s: string, lower: char -> char): string {
    seq(|s|, i requires 0 <= i < |s| => lower(s[i]))
  }

  /** The inner two loops of `match_wake`: the leftmost place of one phrase. */
  method FindPhrase(words: seq<Token>, phrase: seq<string>) returns (r: Option<nat>)
    requires phrase != []
    ensures r.Some? ==> r.value < |words| && StandsAt(Texts(words), phrase, r.value)
    ensures r.Some? ==> forall j: nat :: j < r.value ==> !StandsAt(Texts(words), phrase, j)
    ensures r.None? ==> !Stands(Texts(words), phrase)
  {
    var start := 0;
    while start < |words|
      invariant 0 <= start <= |words|
      invariant forall j: nat :: j < start ==> !StandsAt(Texts(words), phrase, j)
    {
      if |words| - start < |phrase| {
        break;
      }
      var i := 0;
      while i < |phrase| && words[start + i].word == phrase[i]
        invariant 0 <= i <= |phrase|
        invariant forall j :: 0 <= j < i ==> words[start + j].word == phrase[j]
      {
        i := i + 1;
      }
      if i == |phrase| {
        assert Texts(words)[start..start + |phrase|] == phrase;
        return Some(start);
      }
      assert Texts(words)[start..start + |phrase|][i] != phrase[i];
      start := start + 1;
    }
    assert forall k: nat :: StandsAt(Texts(words), phrase, k) ==> k < start || k + |phrase| <= |words|;
    return None;
  }

  /** `match_wake` */
  method MatchWake(phrases: seq<seq<string>>, haystack: string, lower: char -> char) returns (r: Option<nat>)
    ensures var words := Words(Lower(haystack, lower));
            && (r.None? <==> !Wakes(phrases, words))
            && (r.Some? ==> exists k: nat :: IsWake(phrases, words, k) && k < |Tokens(Lower(haystack, lower))|
                                             && r.value == Tokens(Lower(haystack, lower))[k].at)
  {
    hide Tokens;
    hide Words;
    var low := Lower(haystack, lower);
    WordsAreTexts(low);
    var words := WordOffsets(low);
    for n := 0 to |phrases|
      invariant forall m :: 0 <= m < n && phrases[m] != [] ==> !Stands(Texts(words), phrases[m])
    {
      if phrases[n] == [] {
        continue;
      }
      var found := FindPhrase(words, phrases[n]);
      if found.Some? {
        assert Stands(Texts(words), phrases[n]) && phrases[n] in phrases;
        assert IsWakeBy(phrases, Texts(words), found.value, n);
        return Some(words[found.value].at);
      }
    }
    return None;
  }

  // ---------------------------------------------------------------- one speaker's gate

  /** A fragment is set off from what was gathered before it, so that two words never fuse. */
  function Joined(gathered: string, text: string): string {
    if Closed(gathered) then gathered + text else gathered + " " + text
  }

  /** Nothing is put between them but one space, and that only between two characters that would fuse. */
  lemma {:induction false} JoinedIs(gathered: string, text: string)
    ensures var fuses := gathered != "" && !IsWhitespace(gathered[|gathered| - 1]);
            Joined(gathered, text) == gathered + (if fuses then " " else "") + text
  {
    assert gathered + "" + text == gathered + text;
  }

  /** Lower-casing makes and unmakes no whitespace. */
  ghost predicate KeepsSpaces(lower: char -> char) {
    forall c :: IsWhitespace(lower(c)) <==> IsWhitespace(c)
  }

  function Spoken(text: string, lower: char -> char): seq<string> {
    Words(Lower(text, lower))
  }

  /** The words of the joined text are the words of the parts. */
  lemma {:induction false} SpokenJoined(gathered: string, text: string, lower: char -> char)
    requires KeepsSpaces(lower)
    ensures Spoken(Joined(gathered, text), lower) == Spoken(gathered, lower) + Spoken(text, lower)
  {
    var a, b := Lower(gathered, lower), Lower(text, lower);
    if Closed(gathered) {
      assert Lower(gathered + text, lower) == a + b;
      assert Closed(a);
      WordsApart(a, b);
    } else {
      var gap := [lower(' ')];
      assert Lower(gathered + " " + text, lower) == a + gap + b;
      assert IsWhitespace(lower(' '));
      assert Closed(a + gap);
      WordsApart(a + gap, b);
      assert (a + gap)[..|a|] == a;
      assert Words(a + gap) == Words(a);
    }
  }

  datatype Config = Config(phrases: seq<seq<string>>, keepalive: nat, lower: char -> char)

  datatype Participant = Participant(awake: bool, wakeTimer: nat, accumulator: string)

  const NEWCOMER := Participant(false, 0, "")

  datatype Heard = Heard(text: string, now: nat)

  /** Awake, and less than `keepalive` has passed; a clock that runs backwards counts as no time. */
  predicate IsOpen(cfg: Config, p: Participant, now: nat) {
    p.awake && (if now >= p.wakeTimer then now - p.wakeTimer else 0) < cfg.keepalive
  }

  lemma {:induction false} WakeExists(phrases: seq<seq<string>>, words: seq<string>)
    requires Wakes(phrases, words)
    ensures exists k: nat :: k < |words| && IsWake(phrases, words, k)
  {
    var n := 0;
    var p :| p in phrases && p != [] && Stands(words, p);
    while n < |phrases| && !(phrases[n] != [] && Stands(words, phrases[n]))
      invariant 0 <= n <= |phrases|
      invariant forall m :: 0 <= m < n && phrases[m] != [] ==> !Stands(words, phrases[m])
    {
      n := n + 1;
    }
    var last: nat :| StandsAt(words, phrases[n], last);
    var k := 0;
    while !StandsAt(words, phrases[n], k)
      invariant k <= last && forall j: nat :: j < k ==> !StandsAt(words, phrases[n], j)
      decreases last - k
    {
      k := k + 1;
    }
    assert IsWakeBy(phrases, words, k, n);
    assert k < |words| && IsWake(phrases, words, k);
  }

  /** Where the wake phrase starts in a text that holds one. */
  ghost function WakeStart(cfg: Config, text: string): (at: nat)
    requires Wakes(cfg.phrases, Spoken(text, cfg.lower))
    ensures at <= |text|
  {
    var low := Lower(text, cfg.lower);
    WordsAreTexts(low);
    TokensTokenize(low);
    WakeExists(cfg.phrases, Words(low));
    var k: nat :| k < |Words(low)| && IsWake(cfg.phrases, Words(low), k);
    assert IsToken(low, Tokens(low), k);
    Tokens(low)[k].at
  }

  /** What one transcript does to its speaker's gate, and what it lets through. */
  ghost function Step(cfg: Config, p: Participant, h: Heard): (Participant, Option<string>) {
    if IsOpen(cfg, p, h.now) then (p.(wakeTimer := h.now), Some(h.text))
    else
      var gathered := Joined(p.accumulator, h.text);
      if Wakes(cfg.phrases, Spoken(gathered, cfg.lower))
      then (Participant(true, h.now, ""), Some(gathered[WakeStart(cfg, gathered)..]))
      else (Participant(false, p.wakeTimer, gathered), None)
  }

  ghost function Run(cfg: Config, p: Participant, heard: seq<Heard>): Participant {
    if heard == [] then p else Step(cfg, Run(cfg, p, heard[..|heard| - 1]), heard[|heard| - 1]).0
  }

  ghost function Outputs(cfg: Config, p: Participant, heard: seq<Heard>): seq<Option<string>> {
    if heard == [] then []
    else
      var front := heard[..|heard| - 1];
      Outputs(cfg, p, front) + [Step(cfg, Run(cfg, p, front), heard[|heard| - 1]).1]
  }

  /** No stored text holds a wake phrase, whatever was heard. */
  lemma {:induction false} StoredIsQuiet(cfg: Config, heard: seq<Heard>)
    ensures !Wakes(cfg.phrases, Spoken(Run(cfg, NEWCOMER, heard).accumulator, cfg.lower))
    ensures Run(cfg, NEWCOMER, heard).awake ==> Run(cfg, NEWCOMER, heard).accumulator == ""
  {
    hide Wakes;
    NothingWakes(cfg);
    if heard != [] {
      StoredIsQuiet(cfg, heard[..|heard| - 1]);
    }
  }

  lemma {:induction false} NothingWakes(cfg: Config)
    ensures !Wakes(cfg.phrases, Spoken("", cfg.lower))
  {
    assert Lower("", cfg.lower) == "";
  }

  function AllSpoken(heard: seq<Heard>, lower: char -> char): seq<string> {
    if heard == [] then []
    else AllSpoken(heard[..|heard| - 1], lower) + Spoken(heard[|heard| - 1].text, lower)
  }

  /** No beginning of what was heard holds a phrase. */
  ghost predicate Quiet(cfg: Config, heard: seq<Heard>) {
    forall n :: 0 <= n <= |heard| ==> !Wakes(cfg.phrases, AllSpoken(heard[..n], cfg.lower))
  }

  /** One transcript more at a shut gate. */
  lemma {:induction false} GathersOne(cfg: Config, p: Participant, h: Heard)
    requires KeepsSpaces(cfg.lower) && !IsOpen(cfg, p, h.now)
    ensures var words := Spoken(p.accumulator, cfg.lower) + Spoken(h.text, cfg.lower);
            var (q, answer) := Step(cfg, p, h);
            && (answer.Some? <==> Wakes(cfg.phrases, words))
            && (answer.None? ==> !q.awake && Spoken(q.accumulator, cfg.lower) == words
                                 && q.accumulator == Joined(p.accumulator, h.text))
  {
    hide Wakes;
    hide Spoken;
    hide Joined;
    SpokenJoined(p.accumulator, h.text, cfg.lower);
  }

  /** While no phrase is complete, everything is withheld and every word is kept. */
  lemma {:induction false} Gathers(cfg: Config, p: Participant, heard: seq<Heard>)
    requires KeepsSpaces(cfg.lower) && p.accumulator == "" && Quiet(cfg, heard)
    requires heard != [] ==> !IsOpen(cfg, p, heard[0].now)
    ensures var q := Run(cfg, p, heard);
            && Spoken(q.accumulator, cfg.lower) == AllSpoken(heard, cfg.lower)
            && (heard != [] ==> !q.awake)
            && Outputs(cfg, p, heard) == seq(|heard|, _ => None)
  {
    hide Wakes;
    hide Spoken;
    hide Step;
    if heard == [] {
      NothingSpoken(cfg.lower);
    } else {
      var front, last := heard[..|heard| - 1], heard[|heard| - 1];
      assert forall n :: 0 <= n <= |front| ==> front[..n] == heard[..n];
      Gathers(cfg, p, front);
      GathersOne(cfg, Run(cfg, p, front), last);
      assert heard[..|heard|] == heard;
    }
  }

  lemma {:induction false} NothingSpoken(lower: char -> char)
    ensures Spoken("", lower) == []
  {
    assert Lower("", lower) == "";
  }

  /** A phrase spread over several transcripts opens a shut gate at the first transcript that completes it. */
  lemma {:induction false} OpensAtFirstCompletion(cfg: Config, p: Participant, heard: seq<Heard>, last: Heard)
    requires KeepsSpaces(cfg.lower) && p.accumulator == "" && Quiet(cfg, heard)
    requires !IsOpen(cfg, p, (heard + [last])[0].now)
    ensures Step(cfg, Run(cfg, p, heard), last).1.Some? <==> Wakes(cfg.phrases, AllSpoken(heard + [last], cfg.lower))
    ensures var (q, answer) := Step(cfg, Run(cfg, p, heard), last);
            var all := AllSpoken(heard + [last], cfg.lower);
            answer.Some? ==>
              && q == Participant(true, last.now, "")
              && exists k: nat :: k < |all| && IsWake(cfg.phrases, all, k)
                                  && Spoken(answer.value, cfg.lower) == all[k..]
  {
    hide Wakes, Spoken, Step, Outputs, IsWake, Joined, IsWhitespace;
    Gathers(cfg, p, heard);
    assert (heard + [last])[..|heard|] == heard;
    if heard != [] { assert (heard + [last])[0] == heard[0]; }
    GathersOne(cfg, Run(cfg, p, heard), last);
    if Step(cfg, Run(cfg, p, heard), last).1.Some? {
      OpeningPasses(cfg, Run(cfg, p, heard), last);
    }
  }

  /** When the gate was last passed. */
  function LastTime(since: nat, heard: seq<Heard>): nat {
    if heard == [] then since else heard[|heard| - 1].now
  }

  /** Every transcript comes less than `keepalive` after the one before it, the first after `since`. */
  predicate Prompt(since: nat, heard: seq<Heard>, keepalive: nat) {
    heard == []
    || (var front := heard[..|heard| - 1];
        Prompt(since, front, keepalive) && heard[|heard| - 1].now < LastTime(since, front) + keepalive)
  }

  /** An open gate stays open and lets everything through unchanged as long as no pause reaches `keepalive`. */
  lemma {:induction false} StaysOpen(cfg: Config, p: Participant, heard: seq<Heard>)
    requires p.awake && cfg.keepalive > 0 && Prompt(p.wakeTimer, heard, cfg.keepalive)
    ensures var q := Run(cfg, p, heard);
            q.awake && q.accumulator == p.accumulator
            && q.wakeTimer == LastTime(p.wakeTimer, heard)
    ensures Outputs(cfg, p, heard) == seq(|heard|, i requires 0 <= i < |heard| => Some(heard[i].text))
  {
    if heard != [] {
      var front, last := heard[..|heard| - 1], heard[|heard| - 1];
      StaysOpen(cfg, p, front);
      assert IsOpen(cfg, Run(cfg, p, front), last.now);
    }
  }

  /** A pause of `keepalive` or more shuts it: nothing passes unless it holds a phrase itself. */
  lemma {:induction false} PauseShuts(cfg: Config, p: Participant, h: Heard)
    requires KeepsSpaces(cfg.lower) && p.accumulator == "" && h.now >= p.wakeTimer + cfg.keepalive
    ensures Step(cfg, p, h).1.Some? <==> Wakes(cfg.phrases, Spoken(h.text, cfg.lower))
  {
    GathersOne(cfg, p, h);
    NothingSpoken(cfg.lower);
    assert [] + Spoken(h.text, cfg.lower) == Spoken(h.text, cfg.lower);
  }

  /** What an opening gate lets through starts with a wake phrase. */
  lemma {:induction false} GatedStartsWithPhrase(cfg: Config, p: Participant, h: Heard)
    requires !IsOpen(cfg, p, h.now) && Step(cfg, p, h).1.Some?
    ensures exists phrase :: phrase in cfg.phrases && phrase != []
                             && phrase <= Spoken(Step(cfg, p, h).1.value, cfg.lower)
  {
    hide Spoken, Wakes, WakeStart, Joined, Words;
    var text := Joined(p.accumulator, h.text);
    var k := FromWakeStart(cfg, text);
    var all := Spoken(text, cfg.lower);
    var n: nat :| n < |cfg.phrases| && IsWakeBy(cfg.phrases, all, k, n);
    assert all[k..][..|cfg.phrases[n]|] == cfg.phrases[n];
    assert cfg.phrases[n] in cfg.phrases && cfg.phrases[n] <= Spoken(text[WakeStart(cfg, text)..], cfg.lower);
  }

  /** From the wake phrase on, the words of a text are those it has from the phrase on. */
  lemma {:induction false} FromWakeStart(cfg: Config, text: string) returns (k: nat)
    requires Wakes(cfg.phrases, Spoken(text, cfg.lower))
    ensures var all, at := Spoken(text, cfg.lower), WakeStart(cfg, text);
            && k < |all| && IsWake(cfg.phrases, all, k) && Spoken(text[at..], cfg.lower) == all[k..]
            && at < |text| && !IsWhitespace(cfg.lower(text[at]))
  {
    hide Tokens, Words, IsWhitespace;
    var low, at := Lower(text, cfg.lower), WakeStart(cfg, text);
    WordsAreTexts(low);
    TokensTokenize(low);
    k := WakeStartIsToken(cfg, text);
    FromToken(low, k);
    assert IsToken(low, Tokens(low), k);
    ghost var t := Tokens(low)[k];
    assert t.word[0] == low[t.at..EndOf(t)][0] == low[at];
    assert Lower(text[at..], cfg.lower) == low[at..];
  }

  /**
   What an opening gate lets through, and how it stands then: the text gathered, from the first
   character of the wake phrase to its end, all words from the phrase on; open since now, nothing stored.
   */
  lemma {:induction false} OpeningPasses(cfg: Config, p: Participant, h: Heard)
    requires KeepsSpaces(cfg.lower) && !IsOpen(cfg, p, h.now) && Step(cfg, p, h).1.Some?
    ensures var (q, answer) := Step(cfg, p, h);
            var gathered := Joined(p.accumulator, h.text);
            var all := Spoken(p.accumulator, cfg.lower) + Spoken(h.text, cfg.lower);
            && q == Participant(true, h.now, "")
            && 0 < |answer.value| <= |gathered| && answer.value == gathered[|gathered| - |answer.value|..]
            && !IsWhitespace(answer.value[0])
            && exists k: nat :: k < |all| && IsWake(cfg.phrases, all, k) && Spoken(answer.value, cfg.lower) == all[k..]
  {
    hide Spoken, Wakes, WakeStart, Joined, Words, IsWhitespace, IsWake;
    SpokenJoined(p.accumulator, h.text, cfg.lower);
    var k := FromWakeStart(cfg, Joined(p.accumulator, h.text));
  }

  lemma {:induction false} WakeStartIsToken(cfg: Config, text: string) returns (k: nat)
    requires Wakes(cfg.phrases, Spoken(text, cfg.lower))
    ensures var low := Lower(text, cfg.lower);
            k < |Tokens(low)| && IsWake(cfg.phrases, Words(low), k) && WakeStart(cfg, text) == Tokens(low)[k].at
  {
    var low := Lower(text, cfg.lower);
    WordsAreTexts(low);
    WakeExists(cfg.phrases, Words(low));
    k :| k < |Words(low)| && IsWake(cfg.phrases, Words(low), k) && WakeStart(cfg, text) == Tokens(low)[k].at;
  }

  /** The tokens that start before the `k`th one are the first `k`. */
  lemma {:induction false} CountBefore(s: string, a: string, ours: seq<Token>, rest: seq<Token>, k: nat)
    requires Tokenizes(s, ours + rest) && Tokenizes(a, ours)
    requires forall i :: 0 <= i < |rest| ==> rest[i].at >= |a|
    requires k < |ours + rest| && (ours + rest)[k].at == |a|
    ensures |ours| == k
  {
    forall i | 0 <= i < |ours| ensures ours[i].at < |a| {
      assert IsToken(a, ours, i);
    }
    if |ours| < k {
      AtsGrow(s, ours + rest, |ours|, k);
    }
  }

  /** A text read from the start of one of its words holds that word and the ones after it. */
  lemma {:induction false} FromToken(s: string, k: nat)
    requires k < |Tokens(s)|
    ensures |Words(s)| == |Tokens(s)| && Tokens(s)[k].at <= |s|
    ensures Words(s)[k..] == Words(s[Tokens(s)[k].at..])
  {
    hide Tokens;
    hide Words;
    hide Tokenizes;
    TokensTokenize(s);
    var tokens := Tokens(s);
    TokenStartsClean(s, tokens, k);
    var a, b := s[..tokens[k].at], s[tokens[k].at..];
    assert s == a + b;
    TokensApart(a, b);
    TokensTokenize(a);
    CountBefore(s, a, Tokens(a), Shift(Tokens(b), |a|), k);
    assert tokens[k..] == Shift(Tokens(b), |a|);
    WordsAreTexts(s);
    WordsAreTexts(b);
  }

  lemma {:induction false} TokenStartsClean(s: string, tokens: seq<Token>, k: nat)
    requires k < |tokens| && Tokenizes(s, tokens)
    ensures tokens[k].at <= |s| && Closed(s[..tokens[k].at])
  {
    hide IsWhitespace;
    assert IsToken(s, tokens, k);
    var at := tokens[k].at;
    if at > 0 { assert IsWhitespace(s[at - 1]); }
  }

  lemma {:induction false} AtsGrow(s: string, tokens: seq<Token>, i: nat, j: nat)
    requires Tokenizes(s, tokens) && i < j < |tokens|
    ensures tokens[i].at < tokens[j].at
    decreases j
  {
    assert IsToken(s, tokens, j);
    if i < j - 1 {
      AtsGrow(s, tokens, i, j - 1);
    }
  }

  // ---------------------------------------------------------------- all speakers together

  datatype Frame =
    | Transcription(text: string, userId: string, language: string, final_: bool)
    | OtherFrame(payload: string)

  datatype Event = Event(userId: string, heard: Heard)

  /** What `user` said, out of everything that was said. */
  function Own(events: seq<Event>, user: string): seq<Heard> {
    if events == [] then []
    else Own(events[..|events| - 1], user)
         + (if events[|events| - 1].userId == user then [events[|events| - 1].heard] else [])
  }

  datatype Answer = Answer(userId: string, text: Option<string>)

  function OwnAnswers(answers: seq<Answer>, user: string): seq<Option<string>> {
    if answers == [] then []
    else OwnAnswers(answers[..|answers| - 1], user)
         + (if answers[|answers| - 1].userId == user then [answers[|answers| - 1].text] else [])
  }

  /** The frame with the text its speaker's gate lets through, if any. */
  function Pass(frame: Frame, answer: Option<string>): Option<Frame>
    requires frame.Transcription?
  {
    if answer.None? then None else Some(frame.(text := answer.value))
  }

  function StateOf(participants: map<string, Participant>, user: string): Participant {
    if user in participants then participants[user] else NEWCOMER
  }

  /** Each speaker's state and answers are those of a run on that speaker's transcripts alone. */
  ghost predicate Separate(cfg: Config, participants: map<string, Participant>, events: seq<Event>,
                           answers: seq<Answer>) {
    forall user :: IsRunOf(cfg, StateOf(participants, user), OwnAnswers(answers, user), Own(events, user))
  }

  ghost predicate IsRunOf(cfg: Config, p: Participant, answers: seq<Option<string>>, heard: seq<Heard>) {
    p == Run(cfg, NEWCOMER, heard) && answers == Outputs(cfg, NEWCOMER, heard)
  }

  /** One more transcript keeps the speakers separate. */
  lemma {:induction false} SeparateStep(cfg: Config, participants: map<string, Participant>, events: seq<Event>,
                                        answers: seq<Answer>, e: Event)
    requires Separate(cfg, participants, events, answers)
    ensures var (q, answer) := Step(cfg, StateOf(participants, e.userId), e.heard);
            Separate(cfg, participants[e.userId := q], events + [e], answers + [Answer(e.userId, answer)])
  {
    hide Step;
    hide IsRunOf;
    var (q, answer) := Step(cfg, StateOf(participants, e.userId), e.heard);
    var more, others, all := events + [e], answers + [Answer(e.userId, answer)], participants[e.userId := q];
    forall user ensures IsRunOf(cfg, StateOf(all, user), OwnAnswers(others, user), Own(more, user)) {
      var p, said, own := StateOf(participants, user), OwnAnswers(answers, user), Own(events, user);
      assert IsRunOf(cfg, p, said, own);
      assert more[..|more| - 1] == events && others[..|others| - 1] == answers;
      if user == e.userId {
        RunOn(cfg, p, said, own, e.heard);
      } else {
        assert OwnAnswers(others, user) == said && Own(more, user) == own;
      }
    }
  }

  lemma {:induction false} RunOn(cfg: Config, p: Participant, answers: seq<Option<string>>, heard: seq<Heard>, h: Heard)
    requires IsRunOf(cfg, p, answers, heard)
    ensures var (q, answer) := Step(cfg, p, h); IsRunOf(cfg, q, answers + [answer], heard + [h])
  {
    hide Step;
    assert (heard + [h])[..|heard|] == heard;
  }

  class WakeCheckFilter {
    const cfg: Config
    var participants: map<string, Participant>
    ghost var events: seq<Event>
    ghost var answers: seq<Answer>

    ghost predicate Valid()
      reads this`participants, this`events, this`answers
    {
      Separate(cfg, participants, events, answers)
    }

    constructor (cfg: Config)
      ensures Valid() && this.cfg == cfg && events == [] && answers == []
    {
      this.cfg := cfg;
      participants, events, answers := map[], [], [];
    }

    /** `process_frame` */
    method ProcessFrame(frame: Frame, now: nat) returns (out: Option<Frame>)
      requires Valid()
      modifies this
      ensures Valid()
      ensures frame.OtherFrame? ==> out == Some(frame) && events == old(events) && participants == old(participants)
      ensures frame.Transcription? ==>
                var (q, answer) := Step(cfg, StateOf(old(participants), frame.userId), Heard(frame.text, now));
                && (out.None? <==> answer.None?)
                && (out.Some? ==> out.value == Transcription(answer.value, frame.userId, frame.language, frame.final_))
                && participants == old(participants)[frame.userId := q]
                && events == old(events) + [Event(frame.userId, Heard(frame.text, now))]
                && answers == old(answers) + [Answer(frame.userId, answer)]
    {
      if frame.OtherFrame? {
        return Some(frame);
      }
      hide Step;
      hide Separate;
      var h := Heard(frame.text, now);
      var p := if frame.userId in participants then participants[frame.userId] else NEWCOMER;
      var q, answer := Turn(p, h);
      SeparateStep(cfg, participants, events, answers, Event(frame.userId, h));
      participants := participants[frame.userId := q];
      events := events + [Event(frame.userId, h)];
      answers := answers + [Answer(frame.userId, answer)];
      out := Pass(frame, answer);
    }

    /** The part of `process_frame` that works on one speaker's record. */
    method Turn(p: Participant, h: Heard) returns (q: Participant, answer: Option<string>)
      ensures (q, answer) == Step(cfg, p, h)
    {
      hide Tokens;
      hide Words;
      hide Wakes;
      q := p;
      if q.awake {
        if (if h.now >= q.wakeTimer then h.now - q.wakeTimer else 0) < cfg.keepalive {
          return q.(wakeTimer := h.now), Some(h.text);
        }
        q := q.(awake := false);
      }
      if q.accumulator != "" && !IsWhitespace(q.accumulator[|q.accumulator| - 1]) {
        q := q.(accumulator := q.accumulator + " ");
      }
      q := q.(accumulator := q.accumulator + h.text);
      var start := MatchWake(cfg.phrases, q.accumulator, cfg.lower);
      if start.Some? {
        ghost var low := Lower(q.accumulator, cfg.lower);
        ghost var k: nat :| IsWake(cfg.phrases, Words(low), k) && k < |Tokens(low)| && start.value == Tokens(low)[k].at;
        StartIs(cfg, q.accumulator, k);
        answer := Some(q.accumulator[start.value..]);
        q := Participant(true, h.now, "");
      } else {
        answer := None;
      }
    }
  }

  /** `WakeStart` is the one start that `match_wake` can report. */
  lemma {:induction false} StartIs(cfg: Config, text: string, k: nat)
    requires var low := Lower(text, cfg.lower); IsWake(cfg.phrases, Words(low), k) && k < |Tokens(low)|
    ensures Wakes(cfg.phrases, Spoken(text, cfg.lower))
    ensures WakeStart(cfg, text) == Tokens(Lower(text, cfg.lower))[k].at
  {
    hide Tokens;
    hide Words;
    var words := Words(Lower(text, cfg.lower));
    var n :| 0 <= n < |cfg.phrases| && IsWakeBy(cfg.phrases, words, k, n);
    assert cfg.phrases[n] in cfg.phrases && Stands(words, cfg.phrases[n]);
    assert Wakes(cfg.phrases, words);
    var j := WakeStartIsToken(cfg, text);
    WakeIsUnique(cfg.phrases, words, j, k);
  }
}
