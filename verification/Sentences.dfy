/**
 The sentence aggregator (flowcat-core/src/agent/text_filter.rs).

 The source keeps only a buffer and a flag. Here the sentence boundaries of a text are first
 defined on the whole text, without any buffer; the aggregator is then proved to release
 exactly the pieces between those boundaries, however the text was cut into chunks.
 */
module Sentences {
  import opened Text

  /** `SENTENCE_ENDING_PUNCTUATION` */
  predicate IsTerminal(c: char) {
    || c == '.' || c == '?' || c == '!' || c == ';'
    || c == '\U{3002}' || c == '\U{FF1F}' || c == '\U{FF01}' || c == '\U{FF1B}'
  }

  predicate EndsInMark(text: string) {
    text != "" && IsTerminal(text[|text| - 1])
  }

  /** A dot with a digit on each side. */
  predicate IsDecimalPoint(t: string, i: nat)
    requires i < |t|
  {
    t[i] == '.' && i > 0 && IsDigit(t[i - 1]) && i + 1 < |t| && IsDigit(t[i + 1])
  }

  // ---------------------------------------------------------------- boundaries of a text

  /** The last non-whitespace position before `n`. */
  function PrevSolid(t: string, n: nat): (r: Option<nat>)
    requires n <= |t|
    ensures r.Some? ==> r.value < n && !IsWhitespace(t[r.value])
  {
    if n == 0 then None
    else if !IsWhitespace(t[n - 1]) then Some(n - 1)
    else PrevSolid(t, n - 1)
  }

  /** The first non-whitespace position at or after `n`. */
  function NextSolid(t: string, n: nat): (r: Option<nat>)
    requires n <= |t|
    ensures r.Some? ==> n <= r.value < |t| && !IsWhitespace(t[r.value])
    decreases |t| - n
  {
    if n == |t| then None
    else if !IsWhitespace(t[n]) then Some(n)
    else NextSolid(t, n + 1)
  }

  /**
   A terminal mark that asks for lookahead. Marks with nothing but whitespace between them pair
   up: the first opens, the second closes, the third opens again.
   */
  predicate Opens(t: string, i: nat)
    requires i < |t|
    decreases i
  {
    IsTerminal(t[i]) && var p := PrevSolid(t, i); p.None? || !Opens(t, p.value)
  }

  /**
   A sentence ends just after position `i`: at every closing mark, and at an opening mark whose
   next non-whitespace character has been seen, is no mark, and does not make it a decimal point.
   */
  predicate IsCut(t: string, i: nat)
    requires i < |t|
  {
    && IsTerminal(t[i])
    && (Opens(t, i) ==>
          var k := NextSolid(t, i + 1);
          k.Some? && !IsTerminal(t[k.value]) && !IsDecimalPoint(t, i))
  }

  /** The text so far ends in an opening mark and perhaps whitespace. */
  predicate Waiting(t: string) {
    var p := PrevSolid(t, |t|);
    p.Some? && Opens(t, p.value)
  }

  /** The cuts of a text, as one flag for each position. */
  function Cuts(t: string): (r: seq<bool>)
    ensures |r| == |t|
  {
    CutsTo(t, |t|)
  }

  function CutsTo(t: string, n: nat): (r: seq<bool>)
    requires n <= |t|
    ensures |r| == n
  {
    if n == 0 then [] else CutsTo(t, n - 1) + [IsCut(t, n - 1)]
  }

  /** One past the last flag set before `n`. */
  function LastCut(cuts: seq<bool>, n: nat): (r: nat)
    requires n <= |cuts|
    ensures r <= n
  {
    if n == 0 then 0
    else if cuts[n - 1] then n
    else LastCut(cuts, n - 1)
  }

  lemma {:induction false} CutAt(t: string, n: nat, i: nat)
    requires i < n <= |t|
    ensures CutsTo(t, n)[i] == IsCut(t, i)
  {
    if i < n - 1 {
      CutAt(t, n - 1, i);
    }
  }

  lemma {:induction false} LastCutIsLast(cuts: seq<bool>, n: nat)
    requires n <= |cuts|
    ensures var r := LastCut(cuts, n); (r > 0 ==> cuts[r - 1]) && forall j :: r <= j < n ==> !cuts[j]
  {
    if n > 0 && !cuts[n - 1] {
      LastCutIsLast(cuts, n - 1);
    }
  }

  lemma {:induction false} PrevSolidIs(t: string, i: nat, n: nat)
    requires i < n <= |t| && !IsWhitespace(t[i]) && forall j :: i < j < n ==> IsWhitespace(t[j])
    ensures PrevSolid(t, n) == Some(i)
  {
    if i < n - 1 {
      PrevSolidIs(t, i, n - 1);
    }
  }

  lemma {:induction false} BlankAfter(t: string, n: nat)
    requires n <= |t|
    ensures var p := PrevSolid(t, n); forall j :: (if p.Some? then p.value + 1 else 0) <= j < n ==> IsWhitespace(t[j])
  {
    if n > 0 && IsWhitespace(t[n - 1]) {
      BlankAfter(t, n - 1);
    }
  }

  lemma {:induction false} BlankBefore(t: string, n: nat)
    requires n <= |t|
    ensures var k := NextSolid(t, n); forall j :: n <= j < (if k.Some? then k.value else |t|) ==> IsWhitespace(t[j])
    decreases |t| - n
  {
    if n < |t| && IsWhitespace(t[n]) {
      BlankBefore(t, n + 1);
    }
  }

  lemma {:induction false} NoneAfter(t: string, n: nat)
    requires n <= |t| && forall j :: n <= j < |t| ==> IsWhitespace(t[j])
    ensures NextSolid(t, n) == None
    decreases |t| - n
  {
    if n < |t| {
      NoneAfter(t, n + 1);
    }
  }

  /** The pieces that `cuts` makes of the first `n` characters. */
  function Pieces(t: string, cuts: seq<bool>, n: nat): seq<string>
    requires n <= |t| == |cuts|
  {
    if n == 0 then []
    else if cuts[n - 1] then Pieces(t, cuts, n - 1) + [t[LastCut(cuts, n - 1)..n]]
    else Pieces(t, cuts, n - 1)
  }

  function Sentences(t: string): seq<string> {
    Pieces(t, Cuts(t), |t|)
  }

  function TailStart(t: string): (r: nat)
    ensures r <= |t|
  {
    LastCut(Cuts(t), |t|)
  }

  /** What follows the last cut. */
  function Tail(t: string): string {
    t[TailStart(t)..]
  }

  function TrimAll(parts: seq<string>): (r: seq<string>)
    ensures |r| == |parts|
  {
    if parts == [] then [] else TrimAll(parts[..|parts| - 1]) + [TrimSpaces(parts[|parts| - 1])]
  }

  /** The sentences as released, without spaces at either end. */
  function Spoken(t: string): seq<string> {
    TrimAll(Sentences(t))
  }

  // ---------------------------------------------------------------- what the pieces are

  /** Nothing is lost: the pieces and the tail are the text. */
  lemma {:induction false} Lossless(t: string)
    ensures Flatten(Sentences(t)) + Tail(t) == t
  {
    PiecesAreLossless(t, Cuts(t), |t|);
  }

  lemma {:induction false} PiecesAreLossless(t: string, cuts: seq<bool>, n: nat)
    requires n <= |t| == |cuts|
    ensures Flatten(Pieces(t, cuts, n)) == t[..LastCut(cuts, n)]
  {
    if n > 0 {
      PiecesAreLossless(t, cuts, n - 1);
      if cuts[n - 1] {
        var before, last := Pieces(t, cuts, n - 1), t[LastCut(cuts, n - 1)..n];
        assert (before + [last])[..|before|] == before;
      }
    }
  }

  /** Trimming spaces does not touch the end of a text that ends in a terminal mark. */
  lemma {:induction false} TrimKeepsMark(piece: string)
    requires piece != "" && IsTerminal(piece[|piece| - 1])
    ensures var r := TrimSpaces(piece); r != "" && r[|r| - 1] == piece[|piece| - 1]
  {
    var drop := (c: char) => c == ' ';
    var s := TrimStart(piece, drop);
    TrimStartIsSuffix(piece, drop);
    assert TrimEnd(s, drop) == s;
  }

  /** Every sentence ends in a terminal mark at a cut, as cut and as released. */
  lemma {:induction false} SentencesEndInMark(t: string, k: nat)
    requires k < |Sentences(t)|
    ensures var piece := Sentences(t)[k]; piece != "" && IsTerminal(piece[|piece| - 1])
    ensures var said := Spoken(t)[k]; said != "" && IsTerminal(said[|said| - 1])
  {
    var i := PieceEndsAtCut(t, Cuts(t), |t|, k);
    CutAt(t, |t|, i);
    TrimKeepsMark(Sentences(t)[k]);
    TrimAllAt(Sentences(t), k);
  }

  lemma {:induction false} TrimAllAt(parts: seq<string>, k: nat)
    requires k < |parts|
    ensures TrimAll(parts)[k] == TrimSpaces(parts[k])
  {
    if k < |parts| - 1 {
      TrimAllAt(parts[..|parts| - 1], k);
    }
  }

  lemma {:induction false} PieceEndsAtCut(t: string, cuts: seq<bool>, n: nat, k: nat) returns (i: nat)
    requires n <= |t| == |cuts| && k < |Pieces(t, cuts, n)|
    ensures i < n && cuts[i]
    ensures var piece := Pieces(t, cuts, n)[k]; piece != "" && piece[|piece| - 1] == t[i]
  {
    if cuts[n - 1] && k == |Pieces(t, cuts, n - 1)| {
      i := n - 1;
    } else {
      i := PieceEndsAtCut(t, cuts, n - 1, k);
    }
  }

  /** No cut falls at a decimal point, and none appears there later. */
  lemma {:induction false} NoCutInDecimal(t: string, i: nat)
    requires i < |t| && IsDecimalPoint(t, i)
    ensures !IsCut(t, i)
  {
    assert PrevSolid(t, i) == Some(i - 1) && !Opens(t, i - 1);
  }

  /**
   Two adjacent marks end up in different sentences exactly when the first is a closing one.
   A run of marks is therefore released two at a time, not as a whole.
   */
  lemma {:induction false} RunsAreSplitInPairs(t: string, i: nat)
    requires i + 1 < |t| && IsTerminal(t[i]) && IsTerminal(t[i + 1])
    ensures IsCut(t, i) <==> !Opens(t, i)
    ensures Opens(t, i + 1) <==> !Opens(t, i)
  {
    assert NextSolid(t, i + 1) == Some(i + 1);
    assert PrevSolid(t, i + 1) == Some(i);
  }

  /** Only marks on `[i, j)`. */
  predicate AllMarks(t: string, i: nat, j: nat)
    requires i <= j <= |t|
  {
    forall k :: i <= k < j ==> IsTerminal(t[k])
  }

  /** Within a run of marks opening and closing ones take turns, so every second one ends a sentence. */
  lemma {:induction false} RunAlternates(t: string, i: nat, k: nat)
    requires i <= k < |t| && AllMarks(t, i, k + 1)
    ensures Opens(t, k) <==> (Opens(t, i) <==> (k - i) % 2 == 0)
    ensures k + 1 < |t| && IsTerminal(t[k + 1]) ==> (IsCut(t, k) <==> (Opens(t, i) <==> (k - i) % 2 == 1))
  {
    hide Opens, IsCut, IsTerminal;
    if k + 1 < |t| && IsTerminal(t[k + 1]) {
      RunsAreSplitInPairs(t, k);
    }
    if i < k {
      RunAlternates(t, i, k - 1);
      RunsAreSplitInPairs(t, k - 1);
    }
  }

  /** A run of marks stays in one piece exactly when it is a single mark, or a pair whose first opens. */
  lemma {:induction false} WholeRunStaysTogetherIff(t: string, i: nat, j: nat)
    requires i < j <= |t| && AllMarks(t, i, j)
    ensures (forall k :: i <= k < j - 1 ==> !IsCut(t, k)) <==> j - i == 1 || (j - i == 2 && Opens(t, i))
  {
    if j - i >= 2 {
      RunAlternates(t, i, i);
      if j - i >= 3 { RunAlternates(t, i, i + 1); }
    }
  }

  /** A run that follows a character of a word, or nothing, begins with an opening mark. */
  lemma {:induction false} RunAfterWordOpens(t: string, i: nat)
    requires i < |t| && IsTerminal(t[i])
    requires i > 0 ==> !IsWhitespace(t[i - 1]) && !IsTerminal(t[i - 1])
    ensures Opens(t, i)
  {
    if i > 0 {
      assert PrevSolid(t, i) == Some(i - 1);
    }
  }

  /**
   A mark behind a word, or at the start, and `k` the next position that is not whitespace: the mark ends
   a sentence exactly when no mark stands at `k`, and it is not a dot between two digits.
   */
  lemma {:induction false} LoneMarkIsCutIff(t: string, i: nat, k: nat)
    requires i < k < |t| && IsTerminal(t[i])
    requires i > 0 ==> !IsWhitespace(t[i - 1]) && !IsTerminal(t[i - 1])
    requires (forall j :: i < j < k ==> IsWhitespace(t[j])) && !IsWhitespace(t[k])
    ensures IsCut(t, i) <==>
              && !IsTerminal(t[k])
              && !(t[i] == '.' && i > 0 && IsDigit(t[i - 1]) && k == i + 1 && IsDigit(t[k]))
  {
    RunAfterWordOpens(t, i);
    NextSolidIs(t, i + 1, k);
    if k > i + 1 { BlankIsNoDigit(t[i + 1]); }
  }

  lemma {:induction false} NextSolidIs(t: string, n: nat, k: nat)
    requires n <= k < |t| && (forall j :: n <= j < k ==> IsWhitespace(t[j])) && !IsWhitespace(t[k])
    ensures NextSolid(t, n) == Some(k)
    decreases k - n
  {
    if n < k { NextSolidIs(t, n + 1, k); }
  }

  lemma {:induction false} BlankIsNoDigit(c: char)
    requires IsWhitespace(c)
    ensures !IsDigit(c)
  {
  }

  /** With nothing but whitespace behind it such a mark is no end yet: the aggregator waits. */
  lemma {:induction false} LastMarkWaits(t: string, i: nat)
    requires i < |t| && IsTerminal(t[i])
    requires i > 0 ==> !IsWhitespace(t[i - 1]) && !IsTerminal(t[i - 1])
    requires forall j :: i < j < |t| ==> IsWhitespace(t[j])
    ensures !IsCut(t, i) && Waiting(t)
  {
    RunAfterWordOpens(t, i);
    MarkIsSolid(t[i]);
    PrevSolidIs(t, i, |t|);
    NoneAfter(t, i + 1);
  }

  /** Some text is cut behind this character. */
  ghost predicate CanEndSentence(c: char) {
    exists t: string, i: nat :: i < |t| && t[i] == c && IsCut(t, i)
  }

  /** Eight characters can end a sentence, and no other can. */
  lemma {:induction false} CanEndSentenceIff(c: char)
    ensures CanEndSentence(c) <==> c in ['.', '?', '!', ';', '\U{3002}', '\U{FF1F}', '\U{FF01}', '\U{FF1B}']
  {
    if IsTerminal(c) {
      var t := [c, 'a'];
      LoneMarkIsCutIff(t, 0, 1);
      assert t[0] == c && IsCut(t, 0);
    }
    hide Opens, NextSolid;
  }

  /** An ellipsis comes out in two pieces. */
  lemma {:induction false} EllipsisIsSplit()
    ensures Sentences("...a") == ["..", "."] && Tail("...a") == "a"
  {
    var t := "...a";
    assert PrevSolid(t, 0) == None && Opens(t, 0);
    RunsAreSplitInPairs(t, 0);
    RunsAreSplitInPairs(t, 1);
    assert NextSolid(t, 3) == Some(3);
    var cuts := Cuts(t);
    assert IsCut(t, 1) && IsCut(t, 2) && !IsCut(t, 0) && !IsCut(t, 3);
    CutAt(t, 4, 0);
    CutAt(t, 4, 1);
    CutAt(t, 4, 2);
    CutAt(t, 4, 3);
    assert cuts == [false, true, true, false];
    assert LastCut(cuts, 1) == 0 && Pieces(t, cuts, 1) == [];
    assert t[0..2] == ".." && t[2..3] == "." && t[3..] == "a";
    assert Pieces(t, cuts, 2) == [".."];
    assert Pieces(t, cuts, 3) == ["..", "."];
    assert Pieces(t, cuts, 4) == Pieces(t, cuts, 3) && LastCut(cuts, 4) == 3;
  }

  // ---------------------------------------------------------------- one more character

  lemma {:induction false} SamePrevSolid(t: string, c: char, n: nat)
    requires n <= |t|
    ensures PrevSolid(t + [c], n) == PrevSolid(t, n)
  {
    if n > 0 {
      SamePrevSolid(t, c, n - 1);
    }
  }

  lemma {:induction false} SameOpens(t: string, c: char, i: nat)
    requires i < |t|
    ensures Opens(t + [c], i) == Opens(t, i)
    decreases i
  {
    SamePrevSolid(t, c, i);
    var p := PrevSolid(t, i);
    if p.Some? {
      SameOpens(t, c, p.value);
    }
  }

  lemma {:induction false} NewOpens(t: string, c: char)
    ensures Opens(t + [c], |t|) <==> IsTerminal(c) && !Waiting(t)
  {
    SamePrevSolid(t, c, |t|);
    var p := PrevSolid(t, |t|);
    if p.Some? {
      SameOpens(t, c, p.value);
    }
  }

  /** The mark, if any, whose fate the next non-whitespace character decides. */
  function Pending(t: string): Option<nat> {
    if Waiting(t) then PrevSolid(t, |t|) else None
  }

  lemma {:induction false} NewWaiting(t: string, c: char)
    ensures Waiting(t + [c]) <==> if IsWhitespace(c) then Waiting(t) else IsTerminal(c) && !Waiting(t)
    ensures IsWhitespace(c) ==> Pending(t + [c]) == Pending(t)
  {
    NewOpens(t, c);
    SamePrevSolid(t, c, |t|);
    var p := PrevSolid(t, |t|);
    if p.Some? {
      SameOpens(t, c, p.value);
    }
  }

  lemma {:induction false} SameNextSolid(t: string, c: char, n: nat)
    requires n <= |t|
    ensures NextSolid(t, n).Some? ==> NextSolid(t + [c], n) == NextSolid(t, n)
    ensures NextSolid(t, n).None? ==> NextSolid(t + [c], n) == if IsWhitespace(c) then None else Some(|t|)
    decreases |t| - n
  {
    if n < |t| {
      SameNextSolid(t, c, n + 1);
    }
  }

  /** The pending mark becomes a cut. */
  predicate Confirms(t: string, c: char, i: nat)
    requires i < |t|
  {
    Pending(t) == Some(i) && !IsWhitespace(c) && !IsTerminal(c) && !IsDecimalPoint(t + [c], i)
  }

  /** How one more character changes the cuts: only the pending mark can become one. */
  lemma {:induction false} NewCuts(t: string, c: char, i: nat)
    requires i < |t|
    ensures IsCut(t + [c], i) <==> IsCut(t, i) || Confirms(t, c, i)
  {
    SameOpens(t, c, i);
    SameNextSolid(t, c, i + 1);
    if Opens(t, i) {
      var k := NextSolid(t, i + 1);
      BlankBefore(t, i + 1);
      if k.None? {
        PrevSolidIs(t, i, |t|);
      } else {
        BlankAfter(t, |t|);
        assert Pending(t) != Some(i);
        assert k.value == i + 1 <==> !IsWhitespace(t[i + 1]);
      }
    } else {
      assert Pending(t) != Some(i);
    }
  }

  lemma {:induction false} NewLastCut(t: string, c: char)
    ensures IsCut(t + [c], |t|) <==> IsTerminal(c) && Waiting(t)
  {
    NewOpens(t, c);
    assert NextSolid(t + [c], |t| + 1).None?;
  }

  /** Cuts are never withdrawn. */
  lemma {:induction false} CutsAreFinal(t: string, u: string, i: nat)
    requires i < |t| && IsCut(t, i)
    ensures IsCut(t + u, i)
    decreases |u|
  {
    if u == "" {
      assert t + u == t;
    } else {
      NewCuts(t, u[0], i);
      CutsAreFinal(t + [u[0]], u[1..], i);
      assert t + [u[0]] + u[1..] == t + u;
    }
  }

  lemma {:induction false} SamePieces(t: string, cuts: seq<bool>, t': string, cuts': seq<bool>, n: nat)
    requires n <= |t| == |cuts| && n <= |t'| == |cuts'|
    requires t[..n] == t'[..n] && cuts[..n] == cuts'[..n]
    ensures Pieces(t, cuts, n) == Pieces(t', cuts', n) && LastCut(cuts, n) == LastCut(cuts', n)
  {
    if n > 0 {
      assert t[..n][..n - 1] == t[..n - 1] && t'[..n][..n - 1] == t'[..n - 1];
      assert cuts[..n][..n - 1] == cuts[..n - 1] && cuts'[..n][..n - 1] == cuts'[..n - 1];
      assert cuts[n - 1] == cuts[..n][n - 1] == cuts'[..n][n - 1] == cuts'[n - 1];
      SamePieces(t, cuts, t', cuts', n - 1);
      var s := LastCut(cuts, n - 1);
      assert t[s..n] == t[..n][s..] == t'[..n][s..] == t'[s..n];
    }
  }

  lemma {:induction false} NoMorePieces(t: string, cuts: seq<bool>, m: nat, n: nat)
    requires m <= n <= |t| == |cuts|
    requires forall i: nat :: m <= i < n ==> !cuts[i]
    ensures Pieces(t, cuts, n) == Pieces(t, cuts, m) && LastCut(cuts, n) == LastCut(cuts, m)
  {
    if m < n {
      NoMorePieces(t, cuts, m, n - 1);
    }
  }

  /**
   The buffer invariant. After the last cut every terminal mark is a decimal point, except the
   pending one, which only whitespace follows.
   */
  lemma {:induction false} TailMarks(t: string, i: nat)
    requires TailStart(t) <= i < |t| && IsTerminal(t[i])
    ensures IsDecimalPoint(t, i) || Pending(t) == Some(i)
    ensures Pending(t) == Some(i) ==> i + 1 == |t| || IsWhitespace(t[i + 1])
  {
    hide Opens, PrevSolid, NextSolid, IsTerminal, IsWhitespace, LastCut;
    MarkIsSolid(t[i]);
    LastCutIsLast(Cuts(t), |t|);
    CutAt(t, |t|, i);
    BlankBefore(t, i + 1);
    BlankAfter(t, |t|);
    var k := NextSolid(t, i + 1);
    if k.None? {
      PrevSolidIs(t, i, |t|);
    } else if IsTerminal(t[k.value]) {
      NextMarkCloses(t, i, k.value);
      CutAt(t, |t|, k.value);
    }
  }

  lemma {:induction false} MarkIsSolid(c: char)
    requires IsTerminal(c)
    ensures !IsWhitespace(c)
  {
  }

  lemma {:induction false} NextMarkCloses(t: string, i: nat, k: nat)
    requires i < |t| && Opens(t, i) && NextSolid(t, i + 1) == Some(k) && IsTerminal(t[k])
    ensures IsCut(t, k)
  {
    BlankBefore(t, i + 1);
    PrevSolidIs(t, i, k);
  }

  /** A pending mark has not been cut off. */
  lemma {:induction false} PendingInTail(t: string)
    requires Waiting(t)
    ensures TailStart(t) <= Pending(t).value
  {
    var p := Pending(t).value;
    BlankAfter(t, |t|);
    NoneAfter(t, p + 1);
    forall i: nat | p <= i < |t| ensures !Cuts(t)[i] { CutAt(t, |t|, i); }
    LastCutIsLast(Cuts(t), |t|);
  }

  /** A terminal mark that `match_endofsentence` accepts in a buffer. */
  predicate IsBoundary(text: string, i: nat)
    requires i < |text|
  {
    IsTerminal(text[i]) && !IsDecimalPoint(text, i)
  }

  /** `end` is one past the last boundary of `text`, or there is none. */
  ghost predicate EndsLastSentence(text: string, end: Option<nat>) {
    match end
    case None => forall i: nat :: i < |text| ==> !IsBoundary(text, i)
    case Some(m) =>
      && 0 < m <= |text| && IsBoundary(text, m - 1)
      && forall i: nat :: m <= i < |text| ==> !IsBoundary(text, i)
  }

  /** A buffer that starts after a mark sees the same decimal points as the whole text. */
  lemma {:induction false} SameDecimals(t: string, s: nat, i: nat)
    requires s + i < |t| && (s > 0 ==> IsTerminal(t[s - 1]))
    ensures IsDecimalPoint(t[s..], i) <==> IsDecimalPoint(t, s + i)
  {
  }

  /** Before a confirming character, no mark of the buffer but the pending one is a boundary. */
  lemma {:induction false} OnlyPendingIsBoundary(t: string, c: char, i: nat)
    requires Waiting(t) && !IsWhitespace(c) && TailStart(t) <= i < |t|
    ensures IsBoundary(Tail(t) + [c], i - TailStart(t)) <==>
            Pending(t) == Some(i) && !IsDecimalPoint(t + [c], i)
  {
    var s := TailStart(t);
    LastCutIsLast(Cuts(t), |t|);
    if s > 0 { CutAt(t, |t|, s - 1); }
    assert Tail(t) + [c] == (t + [c])[s..];
    SameDecimals(t + [c], s, i - s);
    if IsTerminal(t[i]) {
      TailMarks(t, i);
    }
  }

  /** One step of the aggregator, seen from the text: nothing is released without confirmation. */
  lemma {:induction false} StepQuietly(t: string, c: char)
    requires !Waiting(t) || IsWhitespace(c)
    ensures Sentences(t + [c]) == Sentences(t) && Tail(t + [c]) == Tail(t) + [c]
  {
    QuietCuts(t, c);
    PiecesStay(t, c, Cuts(t));
  }

  /** The cuts of a text with one more character, from what each flag has become. */
  lemma {:induction false} CutsOfAppend(t: string, c: char, cuts: seq<bool>)
    requires |cuts| == |t| + 1
    requires forall i: nat :: i < |t| ==> cuts[i] == (IsCut(t, i) || Confirms(t, c, i))
    requires cuts[|t|] == (IsTerminal(c) && Waiting(t))
    ensures Cuts(t + [c]) == cuts
  {
    var u := t + [c];
    forall i: nat | i < |u| ensures Cuts(u)[i] == cuts[i] {
      CutAt(u, |u|, i);
      if i < |t| { NewCuts(t, c, i); } else { NewLastCut(t, c); }
    }
  }

  lemma {:induction false} QuietCuts(t: string, c: char)
    requires !Waiting(t) || IsWhitespace(c)
    ensures Cuts(t + [c]) == Cuts(t) + [false]
  {
    forall i: nat | i < |t| ensures Cuts(t)[i] == IsCut(t, i) { CutAt(t, |t|, i); }
    CutsOfAppend(t, c, Cuts(t) + [false]);
  }

  lemma {:induction false} PiecesStay(t: string, c: char, cuts: seq<bool>)
    requires |t| == |cuts|
    ensures Pieces(t + [c], cuts + [false], |t| + 1) == Pieces(t, cuts, |t|)
    ensures LastCut(cuts + [false], |t| + 1) == LastCut(cuts, |t|)
  {
    SamePieces(t, cuts, t + [c], cuts + [false], |t|);
  }

  lemma {:induction false} PiecesClose(t: string, c: char, cuts: seq<bool>)
    requires |t| == |cuts|
    ensures Pieces(t + [c], cuts + [true], |t| + 1) == Pieces(t, cuts, |t|) + [t[LastCut(cuts, |t|)..] + [c]]
    ensures LastCut(cuts + [true], |t| + 1) == |t| + 1
  {
    SamePieces(t, cuts, t + [c], cuts + [true], |t|);
    var s := LastCut(cuts, |t|);
    assert (t + [c])[s..|t| + 1] == t[s..] + [c];
  }

  lemma {:induction false} PiecesSplit(t: string, c: char, cuts: seq<bool>, p: nat)
    requires |t| == |cuts| && LastCut(cuts, |t|) <= p < |t|
    ensures var cuts' := cuts[p := true] + [false];
            && Pieces(t + [c], cuts', |t| + 1) == Pieces(t, cuts, |t|) + [t[LastCut(cuts, |t|)..p + 1]]
            && LastCut(cuts', |t| + 1) == p + 1
  {
    var cuts' := cuts[p := true] + [false];
    LastCutIsLast(cuts, |t|);
    NoMorePieces(t, cuts, p, |t|);
    assert (t + [c])[..p] == t[..p] && cuts'[..p] == cuts[..p];
    SamePieces(t, cuts, t + [c], cuts', p);
    var s := LastCut(cuts, p);
    assert (t + [c])[s..p + 1] == t[s..p + 1];
    assert Pieces(t + [c], cuts', p + 1) == Pieces(t, cuts, p) + [t[s..p + 1]];
    NoMorePieces(t + [c], cuts', p + 1, |t| + 1);
  }

  /** Where the last sentence end of the buffer is when a confirming character has arrived. */
  lemma {:induction false} ConfirmedEnd(t: string, c: char, end: Option<nat>)
    requires Waiting(t) && !IsWhitespace(c) && EndsLastSentence(Tail(t) + [c], end)
    ensures TailStart(t) <= Pending(t).value < |t|
    ensures end == if IsTerminal(c) then Some(|Tail(t)| + 1)
                   else if Confirms(t, c, Pending(t).value) then Some(Pending(t).value + 1 - TailStart(t))
                   else None
  {
    var s, p := TailStart(t), Pending(t).value;
    var buffer := Tail(t) + [c];
    PendingInTail(t);
    forall i: nat | i < |buffer| - 1
      ensures IsBoundary(buffer, i) <==> i == p - s && !IsDecimalPoint(t + [c], p)
    {
      OnlyPendingIsBoundary(t, c, s + i);
    }
    EndIs(buffer, end, p - s, !IsDecimalPoint(t + [c], p), IsTerminal(c));
  }

  lemma {:induction false} ConfirmedCuts(t: string, c: char)
    requires Waiting(t) && !IsWhitespace(c)
    ensures Pending(t).value < |t|
    ensures Cuts(t + [c]) ==
            if IsTerminal(c) then Cuts(t) + [true]
            else if Confirms(t, c, Pending(t).value) then Cuts(t)[Pending(t).value := true] + [false]
            else Cuts(t) + [false]
  {
    forall i: nat | i < |t| ensures Cuts(t)[i] == IsCut(t, i) { CutAt(t, |t|, i); }
    CutsOfAppend(t, c,
                 if IsTerminal(c) then Cuts(t) + [true]
                 else if Confirms(t, c, Pending(t).value) then Cuts(t)[Pending(t).value := true] + [false]
                 else Cuts(t) + [false]);
  }

  /** The same for a confirming character: the last sentence end in the buffer is the new cut. */
  lemma {:induction false} StepConfirming(t: string, c: char, end: Option<nat>)
    requires Waiting(t) && !IsWhitespace(c) && EndsLastSentence(Tail(t) + [c], end)
    ensures Sentences(t + [c]) == Sentences(t) + if end.None? then [] else [(Tail(t) + [c])[..end.value]]
    ensures Tail(t + [c]) == if end.None? then Tail(t) + [c] else (Tail(t) + [c])[end.value..]
  {
    hide Opens, Confirms, EndsLastSentence, IsWhitespace, IsTerminal, Pieces, CutsTo, LastCut;
    ConfirmedEnd(t, c, end);
    ConfirmedCuts(t, c);
    PiecesFollowEnd(t, c, Cuts(t), Cuts(t + [c]), Pending(t).value, end);
  }

  /** How the pieces change with the cuts, whatever the cuts are. */
  lemma {:induction false} PiecesFollowEnd(t: string, c: char, cuts: seq<bool>, cuts': seq<bool>, p: nat,
                                           end: Option<nat>)
    requires |t| == |cuts| && LastCut(cuts, |t|) <= p < |t|
    requires var s := LastCut(cuts, |t|);
             || (end == Some(|t| - s + 1) && cuts' == cuts + [true])
             || (end == Some(p + 1 - s) && cuts' == cuts[p := true] + [false])
             || (end == None && cuts' == cuts + [false])
    ensures var buffer := t[LastCut(cuts, |t|)..] + [c];
            && Pieces(t + [c], cuts', |t| + 1)
                 == Pieces(t, cuts, |t|) + (if end.None? then [] else [buffer[..end.value]])
            && (t + [c])[LastCut(cuts', |t| + 1)..] == if end.None? then buffer else buffer[end.value..]
  {
    var s := LastCut(cuts, |t|);
    assert t[s..] + [c] == (t + [c])[s..];
    if end == Some(|t| - s + 1) && cuts' == cuts + [true] {
      PiecesClose(t, c, cuts);
      assert (t[s..] + [c])[..|t| - s + 1] == t[s..] + [c];
    } else if end.Some? {
      PiecesSplit(t, c, cuts, p);
      assert (t + [c])[s..][..p + 1 - s] == t[s..p + 1];
    } else {
      PiecesStay(t, c, cuts);
    }
  }

  /** Which boundary is last, when only position `p` and the final position can be one. */
  lemma {:induction false} EndIs(text: string, end: Option<nat>, p: nat, atP: bool, atEnd: bool)
    requires EndsLastSentence(text, end) && p < |text| - 1
    requires forall i: nat :: i < |text| - 1 ==> (IsBoundary(text, i) <==> i == p && atP)
    requires IsBoundary(text, |text| - 1) <==> atEnd
    ensures end == if atEnd then Some(|text|) else if atP then Some(p + 1) else None
  {
    if atEnd {
      assert IsBoundary(text, |text| - 1);
    } else if atP {
      assert IsBoundary(text, p);
    }
  }

  // ---------------------------------------------------------------- the aggregator

  /** One past the last sentence end in `text`. The trailing run never adds a mark: it would be a boundary. */
  method MatchEndOfSentence(text: string) returns (end: Option<nat>)
    ensures EndsLastSentence(text, end)
  {
    var idx: Option<nat> := None;
    for i := 0 to |text|
      invariant idx.None? ==> forall j: nat :: j < i ==> !IsBoundary(text, j)
      invariant idx.Some? ==> idx.value < i && IsBoundary(text, idx.value)
      invariant idx.Some? ==> forall j: nat :: idx.value < j < i ==> !IsBoundary(text, j)
    {
      var c := text[i];
      if IsTerminal(c) {
        if c == '.' && i > 0 && IsDigit(text[i - 1]) && i + 1 < |text| && IsDigit(text[i + 1]) {
          continue;
        }
        idx := Some(i);
      }
    }
    if idx.None? {
      return None;
    }
    var last := idx.value;
    assert last + 1 < |text| ==> !IsBoundary(text, last + 1);
    var e := EndOfRun(text, last);
    return Some(e + 1);
  }

  /** The last mark of the unbroken run that starts at `last`. */
  method EndOfRun(text: string, last: nat) returns (end: nat)
    requires last < |text|
    ensures last <= end < |text| && forall j :: last < j <= end ==> IsTerminal(text[j])
    ensures end + 1 < |text| ==> !IsTerminal(text[end + 1])
  {
    end := last;
    while end + 1 < |text| && IsTerminal(text[end + 1])
      invariant last <= end < |text| && forall j :: last < j <= end ==> IsTerminal(text[j])
    {
      end := end + 1;
    }
  }

  /** `buffer` has been split at `end`: the trimmed front is released, the rest is kept. */
  ghost predicate SplitsAt(buffer: string, end: Option<nat>, released: Option<string>, kept: string) {
    match end
    case None => released.None? && kept == buffer
    case Some(m) => m <= |buffer| && released == Some(TrimSpaces(buffer[..m])) && kept == buffer[m..]
  }

  /** What one call of the check means for the text: the buffer stays the tail of the input. */
  lemma {:induction false} StepReleases(t: string, c: char, released: Option<string>, kept: string)
    requires !Waiting(t) || IsWhitespace(c) ==> released.None? && kept == Tail(t) + [c]
    requires Waiting(t) && !IsWhitespace(c) ==>
               exists end: Option<nat> :: EndsLastSentence(Tail(t) + [c], end)
                 && SplitsAt(Tail(t) + [c], end, released, kept)
    ensures kept == Tail(t + [c])
    ensures Spoken(t + [c]) == Spoken(t) + if released.Some? then [released.value] else []
    ensures Waiting(t + [c]) == if Waiting(t) then IsWhitespace(c) else IsTerminal(c)
  {
    NewWaiting(t, c);
    if !Waiting(t) || IsWhitespace(c) {
      StepQuietly(t, c);
      assert Spoken(t + [c]) == Spoken(t) + [];
    } else {
      var end: Option<nat> :| EndsLastSentence(Tail(t) + [c], end) && SplitsAt(Tail(t) + [c], end, released, kept);
      StepConfirming(t, c, end);
      TrimAllAppend(Sentences(t), Sentences(t + [c]), Tail(t) + [c], end, released);
    }
  }

  lemma {:induction false} TrimAllAppend(before: seq<string>, after: seq<string>, buffer: string,
                                         end: Option<nat>, released: Option<string>)
    requires end.Some? ==> end.value <= |buffer|
    requires after == before + if end.None? then [] else [buffer[..end.value]]
    requires released == if end.None? then None else Some(TrimSpaces(buffer[..end.value]))
    ensures TrimAll(after) == TrimAll(before) + if released.Some? then [released.value] else []
  {
    if end.Some? {
      assert after[..|after| - 1] == before;
    } else {
      assert after == before;
    }
  }

  class SimpleTextAggregator {
    var text: string
    var needsLookahead: bool
    /** Everything fed since the last flush or reset. */
    ghost var input: string
    /** Everything released from it. */
    ghost var said: seq<string>

    /** The buffer, the flag and the output are functions of the input alone. */
    ghost predicate Valid()
      reads this
    {
      text == Tail(input) && needsLookahead == Waiting(input) && said == Spoken(input)
    }

    constructor ()
      ensures Valid() && input == "" && said == [] && text == "" && !needsLookahead
    {
      text, needsLookahead, input, said := "", false, "", [];
    }

    /** `ch` is the character just read. */
    method CheckSentenceWithLookahead(ch: char) returns (sentence: Option<string>)
      modifies this`text, this`needsLookahead
      ensures needsLookahead == if old(needsLookahead) then IsWhitespace(ch) else EndsInMark(old(text))
      ensures !old(needsLookahead) || IsWhitespace(ch) ==> sentence.None? && text == old(text)
      ensures old(needsLookahead) && !IsWhitespace(ch) ==>
                exists end: Option<nat> :: EndsLastSentence(old(text), end) && SplitsAt(old(text), end, sentence, text)
    {
      if needsLookahead {
        if !IsWhitespace(ch) {
          needsLookahead := false;
          var marker := MatchEndOfSentence(text);
          if marker.Some? {
            var result := text[..marker.value];
            text := text[marker.value..];
            return Some(TrimSpaces(result));
          }
        }
        return None;
      }
      if EndsInMark(text) {
        needsLookahead := true;
      }
      return None;
    }

    /** One turn of the loop in `Aggregate`. */
    method Feed(ch: char) returns (sentence: Option<string>)
      requires Valid()
      modifies this
      ensures Valid() && input == old(input) + [ch]
      ensures said == old(said) + if sentence.Some? then [sentence.value] else []
    {
      text := text + [ch];
      sentence := CheckSentenceWithLookahead(ch);
      StepReleases(input, ch, sentence, text);
      input := input + [ch];
      said := said + if sentence.Some? then [sentence.value] else [];
    }

    /** Releases exactly the sentences that the new input completes. */
    method Aggregate(chunk: string) returns (out: seq<string>)
      requires Valid()
      modifies this
      ensures Valid() && input == old(input) + chunk
      ensures said == old(said) + out
    {
      hide *;
      out := [];
      for i := 0 to |chunk|
        invariant Valid()
        invariant input == old(input) + chunk[..i]
        invariant said == old(said) + out
      {
        var sentence := Feed(chunk[i]);
        if sentence.Some? {
          out := out + [sentence.value];
        }
      }
    }

    method Flush() returns (rest: Option<string>)
      modifies this
      ensures rest == if old(text) == "" then None else Some(TrimSpaces(old(text)))
      ensures text == "" && needsLookahead == (old(text) == "" && old(needsLookahead))
      ensures old(Valid()) ==> Valid() && input == "" && said == []
    {
      if text == "" {
        if Valid() { EmptyTail(input); }
        input, said := "", [];
        return None;
      }
      var result := text;
      text, needsLookahead, input, said := "", false, "", [];
      return Some(TrimSpaces(result));
    }

    method Reset()
      modifies this
      ensures Valid() && input == "" && said == [] && text == "" && !needsLookahead
    {
      text, needsLookahead, input, said := "", false, "", [];
    }
  }

  /** An empty buffer is never left waiting for lookahead. */
  lemma {:induction false} EmptyTail(t: string)
    requires Tail(t) == ""
    ensures !Waiting(t)
  {
    if Waiting(t) {
      PendingInTail(t);
    }
  }

  // ---------------------------------------------------------------- chunking

  lemma {:induction false} SpokenGrowsByOne(t: string, c: char)
    ensures Spoken(t) <= Spoken(t + [c])
  {
    if !Waiting(t) || IsWhitespace(c) {
      StepQuietly(t, c);
    } else {
      var buffer := Tail(t) + [c];
      var end := LastBoundary(buffer);
      StepConfirming(t, c, end);
      TrimAllAppend(Sentences(t), Sentences(t + [c]), buffer, end,
                    if end.None? then None else Some(TrimSpaces(buffer[..end.value])));
    }
  }

  lemma {:induction false} LastBoundary(text: string) returns (end: Option<nat>)
    ensures EndsLastSentence(text, end)
  {
    var n: nat := |text|;
    while n > 0 && !IsBoundary(text, n - 1)
      invariant n <= |text| && forall i: nat :: n <= i < |text| ==> !IsBoundary(text, i)
    {
      n := n - 1;
    }
    if n == 0 {
      end := None;
    } else {
      end := Some(n);
    }
  }

  /** Everything that `spoken` adds while the chunks are fed one after the other. */
  ghost function ReleasedByAll(spoken: string -> seq<string>, before: string, chunks: seq<string>): seq<string>
    requires Grows(spoken)
    decreases |chunks|
  {
    if chunks == [] then []
    else
      GrowsByMore(spoken, before, chunks[0]);
      spoken(before + chunks[0])[|spoken(before)|..] + ReleasedByAll(spoken, before + chunks[0], chunks[1..])
  }

  /** More input never withdraws or changes a sentence. */
  ghost predicate Grows(spoken: string -> seq<string>) {
    forall t, c :: spoken(t) <= spoken(t + [c])
  }

  lemma {:induction false} GrowsByMore(spoken: string -> seq<string>, t: string, u: string)
    requires Grows(spoken)
    ensures spoken(t) <= spoken(t + u)
    decreases |u|
  {
    if u == "" {
      assert t + u == t;
    } else {
      GrowsByMore(spoken, t + [u[0]], u[1..]);
      assert t + [u[0]] + u[1..] == t + u;
    }
  }

  lemma {:induction false} SpokenGrows()
    ensures Grows(Spoken)
  {
    forall t, c ensures Spoken(t) <= Spoken(t + [c]) { SpokenGrowsByOne(t, c); }
  }

  function Concat(chunks: seq<string>): string {
    if chunks == [] then "" else chunks[0] + Concat(chunks[1..])
  }

  lemma {:induction false} ChunksAddUp(spoken: string -> seq<string>, before: string, chunks: seq<string>)
    requires Grows(spoken)
    ensures spoken(before) + ReleasedByAll(spoken, before, chunks) == spoken(before + Concat(chunks))
    decreases |chunks|
  {
    if chunks == [] {
      assert before + Concat(chunks) == before;
    } else {
      GrowsByMore(spoken, before, chunks[0]);
      ChunksAddUp(spoken, before + chunks[0], chunks[1..]);
      hide Grows;
      Associates(before, chunks[0], Concat(chunks[1..]));
      var said, more := spoken(before), spoken(before + chunks[0]);
      Associates(said, more[|said|..], ReleasedByAll(spoken, before + chunks[0], chunks[1..]));
      assert said + more[|said|..] == more;
    }
  }

  /** The released sentences depend on the text alone, not on where the chunks were cut. */
  lemma {:induction false} ChunkingIsIrrelevant(chunks: seq<string>)
    ensures Grows(Spoken) && ReleasedByAll(Spoken, "", chunks) == Spoken(Concat(chunks))
  {
    SpokenGrows();
    ChunksAddUp(Spoken, "", chunks);
    assert Spoken("") == [];
    assert "" + Concat(chunks) == Concat(chunks);
  }
}
