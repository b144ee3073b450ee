/** Character and string vocabulary shared by the text components. */
module Text {

  datatype Option<+T> = None | Some(value: T)

  /** The Unicode `White_Space` property, as `char::is_whitespace` tests it. */
  predicate IsWhitespace(c: char) {
    || '\t' <= c <= '\r'
    || c == ' '
    || c == '\U{0085}'
    || c == '\U{00A0}'
    || c == '\U{1680}'
    || '\U{2000}' <= c <= '\U{200A}'
    || c == '\U{2028}'
    || c == '\U{2029}'
    || c == '\U{202F}'
    || c == '\U{205F}'
    || c == '\U{3000}'
  }

  predicate IsDigit(c: char) {
    '0' <= c <= '9'
  }

  function Flatten(parts: seq<string>): string {
    if parts == [] then "" else Flatten(parts[..|parts| - 1]) + parts[|parts| - 1]
  }

  lemma {:induction false} Associates<T>(a: seq<T>, b: seq<T>, c: seq<T>)
    ensures a + b + c == a + (b + c)
  {
  }

  /** `pattern` occurs in `text` at position `at`. */
  predicate OccursAt(text: string, pattern: string, at: nat) {
    at + |pattern| <= |text| && text[at..at + |pattern|] == pattern
  }

  /** The first occurrence of `pattern` in `text` at or after `from`. */
  function Find(text: string, pattern: string, from: nat): (r: Option<nat>)
    requires from <= |text|
    ensures r.Some? ==> from <= r.value && OccursAt(text, pattern, r.value)
    decreases |text| - from
  {
    if OccursAt(text, pattern, from) then Some(from)
    else if from == |text| then None
    else Find(text, pattern, from + 1)
  }

  /** `Find` misses nothing: every earlier position is no occurrence. */
  lemma {:induction false} FindIsFirst(text: string, pattern: string, from: nat)
    requires from <= |text|
    ensures var r := Find(text, pattern, from);
            forall at: nat :: from <= at && (r.Some? ==> at < r.value) ==> !OccursAt(text, pattern, at)
    decreases |text| - from
  {
    if !OccursAt(text, pattern, from) && from < |text| {
      FindIsFirst(text, pattern, from + 1);
    }
  }

  /** The first occurrence, recognised. */
  lemma {:induction false} FindIs(text: string, pattern: string, from: nat, at: nat)
    requires from <= at && OccursAt(text, pattern, at)
    requires forall i: nat :: from <= i < at ==> !OccursAt(text, pattern, i)
    ensures Find(text, pattern, from) == Some(at)
  {
    FindIsFirst(text, pattern, from);
  }

  /** `text` without leading characters that satisfy `drop`. */
  function TrimStart(text: string, drop: char -> bool): string {
    if text != "" && drop(text[0]) then TrimStart(text[1..], drop) else text
  }

  /** `text` without trailing characters that satisfy `drop`. */
  function TrimEnd(text: string, drop: char -> bool): string {
    if text != "" && drop(text[|text| - 1]) then TrimEnd(text[..|text| - 1], drop) else text
  }

  function TrimBoth(text: string, drop: char -> bool): string {
    TrimEnd(TrimStart(text, drop), drop)
  }

  /** `str::trim` */
  function Trim(text: string): string {
    TrimBoth(text, IsWhitespace)
  }

  /** `trim_matches(' ')` */
  function TrimSpaces(text: string): string {
    TrimBoth(text, c => c == ' ')
  }

  lemma {:induction false} TrimStartIsSuffix(text: string, drop: char -> bool)
    ensures var r := TrimStart(text, drop); |r| <= |text| && r == text[|text| - |r|..]
    ensures text != "" && !drop(text[|text| - 1]) ==> TrimStart(text, drop) != ""
  {
    if text != "" && drop(text[0]) {
      TrimStartIsSuffix(text[1..], drop);
    }
  }

  lemma {:induction false} TrimEndIsPrefix(text: string, drop: char -> bool)
    ensures TrimEnd(text, drop) <= text
  {
    if text != "" && drop(text[|text| - 1]) {
      TrimEndIsPrefix(text[..|text| - 1], drop);
    }
  }

  lemma {:induction false} TrimStartOfMore(text: string, c: char, drop: char -> bool)
    requires drop(c)
    ensures TrimStart(text + [c], drop) == if TrimStart(text, drop) == "" then "" else TrimStart(text, drop) + [c]
  {
    if text == "" {
      assert TrimStart([c][1..], drop) == "" && text + [c] == [c];
    } else if drop(text[0]) {
      TrimStartOfMore(text[1..], c, drop);
      assert (text + [c])[1..] == text[1..] + [c];
    }
  }

  /** Trimming the end first changes nothing. */
  lemma {:induction false} TrimTwice(text: string, drop: char -> bool)
    ensures TrimBoth(TrimEnd(text, drop), drop) == TrimBoth(text, drop)
  {
    if text != "" && drop(text[|text| - 1]) {
      var front, c := text[..|text| - 1], text[|text| - 1];
      TrimTwice(front, drop);
      TrimStartOfMore(front, c, drop);
      assert text == front + [c];
      assert (TrimStart(front, drop) + [c])[..|TrimStart(front, drop)|] == TrimStart(front, drop);
    }
  }

  /** A text that starts with a character to keep loses only at its end. */
  lemma {:induction false} TrimEndOfMore(text: string, front: string, drop: char -> bool)
    requires front != "" && !drop(front[|front| - 1])
    ensures TrimEnd(front + text, drop) == front + TrimEnd(text, drop)
  {
    if text == "" {
      assert front + text == front;
    } else if drop(text[|text| - 1]) {
      TrimEndOfMore(text[..|text| - 1], front, drop);
      assert (front + text)[..|front + text| - 1] == front + text[..|text| - 1];
    }
  }

  /** Trimming takes exactly the run of droppable characters at either end. */
  lemma {:induction false} TrimBothIs(text: string, drop: char -> bool) returns (i: nat, j: nat)
    ensures i <= j <= |text| && TrimBoth(text, drop) == text[i..j]
    ensures forall k :: 0 <= k < i || j <= k < |text| ==> drop(text[k])
    ensures i < j ==> !drop(text[i]) && !drop(text[j - 1])
  {
    i := TrimStartIs(text, drop);
    var rest := text[i..];
    var n := TrimEndIs(rest, drop);
    j := i + n;
    assert forall k :: j <= k < |text| ==> text[k] == rest[k - i];
    if n > 0 { assert rest[n - 1] == text[j - 1]; }
  }

  lemma {:induction false} TrimStartIs(text: string, drop: char -> bool) returns (i: nat)
    ensures i <= |text| && TrimStart(text, drop) == text[i..]
    ensures forall k :: 0 <= k < i ==> drop(text[k])
    ensures i < |text| ==> !drop(text[i])
  {
    if text != "" && drop(text[0]) {
      i := TrimStartIs(text[1..], drop);
      assert forall k :: 1 <= k < i + 1 ==> text[k] == text[1..][k - 1];
      i := i + 1;
    } else {
      i := 0;
    }
  }

  lemma {:induction false} TrimEndIs(text: string, drop: char -> bool) returns (j: nat)
    ensures j <= |text| && TrimEnd(text, drop) == text[..j]
    ensures forall k :: j <= k < |text| ==> drop(text[k])
    ensures j > 0 ==> !drop(text[j - 1])
  {
    if text != "" && drop(text[|text| - 1]) {
      j := TrimEndIs(text[..|text| - 1], drop);
    } else {
      j := |text|;
    }
  }

  /** `trim_matches(' ')` takes the spaces at either end, and nothing else. */
  lemma {:induction false} TrimSpacesIs(text: string) returns (i: nat, j: nat)
    ensures i <= j <= |text| && TrimSpaces(text) == text[i..j]
    ensures forall k :: 0 <= k < i || j <= k < |text| ==> text[k] == ' '
    ensures i < j ==> text[i] != ' ' && text[j - 1] != ' '
  {
    i, j := TrimBothIs(text, c => c == ' ');
  }

  /** `str::trim` takes the whitespace at either end, and nothing else. */
  lemma {:induction false} TrimIs(text: string) returns (i: nat, j: nat)
    ensures i <= j <= |text| && Trim(text) == text[i..j]
    ensures forall k :: 0 <= k < i || j <= k < |text| ==> IsWhitespace(text[k])
    ensures i < j ==> !IsWhitespace(text[i]) && !IsWhitespace(text[j - 1])
  {
    i, j := TrimBothIs(text, IsWhitespace);
  }

  /** Nothing but whitespace is trimmed to nothing. */
  lemma {:induction false} TrimmedAwayIff(text: string)
    ensures Trim(text) == "" <==> forall k :: 0 <= k < |text| ==> IsWhitespace(text[k])
  {
    var i, j := TrimIs(text);
  }
}
