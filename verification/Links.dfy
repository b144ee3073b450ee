/**
 Collapsing Markdown links (`collapse_links` of flowcat-core/src/agent/text_filter.rs).
 */
module Links {
  import opened Text

  /** Text without links, a link and what follows it, and so on. */
  datatype Markdown =
    | Tail(text: string)
    | Link(before: string, shown: string, url: string, rest: Markdown)

  function Print(m: Markdown): string {
    match m
    case Tail(text) => text
    case Link(before, shown, url, rest) => before + "[" + shown + "](" + url + ")" + Print(rest)
  }

  /** Every link gives way to the text it shows. */
  function Collapsed(m: Markdown): string {
    match m
    case Tail(text) => text
    case Link(before, shown, url, rest) => before + shown + Collapsed(rest)
  }

  // ---------------------------------------------------------------- links in a text

  /** A link starts at `j`: its shown text ends at `c`, the first `]`, and its address at `p`, the first `)`. */
  ghost predicate IsLink(s: string, j: nat, c: nat, p: nat) {
    && j < c && c + 1 < p < |s|
    && s[j] == '[' && s[c] == ']' && s[c + 1] == '(' && s[p] == ')'
    && (forall k :: j < k < c ==> s[k] != ']')
    && (forall k :: c + 1 < k < p ==> s[k] != ')')
  }

  /** The same by the searches that the scan makes. */
  function LinkAt(s: string, i: nat): Option<(nat, nat)>
    requires i < |s|
  {
    if s[i] != '[' then None
    else
      match Find(s, "]", i + 1)
      case None => None
      case Some(c) =>
        if c + 1 < |s| && s[c + 1] == '(' then
          match Find(s, ")", c + 1)
          case None => None
          case Some(p) => Some((c, p))
        else None
  }

  lemma {:induction false} FoundChar(s: string, c: char, i: nat)
    requires i <= |s|
    ensures var r := Find(s, [c], i);
            && (r.Some? ==> i <= r.value < |s| && s[r.value] == c && forall k :: i <= k < r.value ==> s[k] != c)
            && (r.None? ==> forall k :: i <= k < |s| ==> s[k] != c)
  {
    FindIsFirst(s, [c], i);
    var r := Find(s, [c], i);
    if r.Some? { assert s[r.value..r.value + 1] == [c]; }
    forall k: nat | i <= k < |s| && (r.Some? ==> k < r.value) ensures s[k] != c {
      assert !OccursAt(s, [c], k);
      assert s[k..k + 1] == [s[k]];
    }
  }

  lemma {:induction false} LinkAtIs(s: string, i: nat)
    requires i < |s|
    ensures LinkAt(s, i).Some? ==> IsLink(s, i, LinkAt(s, i).value.0, LinkAt(s, i).value.1)
    ensures forall c: nat, p: nat :: IsLink(s, i, c, p) ==> LinkAt(s, i) == Some((c, p))
  {
    hide Find;
    if s[i] == '[' {
      FoundChar(s, ']', i + 1);
      var c := Find(s, "]", i + 1);
      if c.Some? && c.value + 1 < |s| && s[c.value + 1] == '(' {
        FoundChar(s, ')', c.value + 1);
      }
    }
  }

  /** The first link that starts at or after `i`. */
  function FirstLink(s: string, i: nat): (r: Option<nat>)
    requires i <= |s|
    ensures r.Some? ==> i <= r.value < |s| && LinkAt(s, r.value).Some?
    decreases |s| - i
  {
    if i == |s| then None else if LinkAt(s, i).Some? then Some(i) else FirstLink(s, i + 1)
  }

  /** No link of `s` starts between `i` and `n`. */
  ghost predicate NoneBetween(s: string, i: nat, n: nat) {
    forall j: nat, c: nat, p: nat :: i <= j < n ==> !IsLink(s, j, c, p)
  }

  lemma {:induction false} FirstLinkIsFirst(s: string, i: nat)
    requires i <= |s|
    ensures var r := FirstLink(s, i); NoneBetween(s, i, if r.Some? then r.value else |s|)
    decreases |s| - i
  {
    hide LinkAt, IsLink;
    if i < |s| {
      LinkAtIs(s, i);
      if LinkAt(s, i).None? {
        FirstLinkIsFirst(s, i + 1);
      }
    }
  }

  lemma {:induction false} FirstLinkIs(s: string, i: nat, j: nat, c: nat, p: nat)
    requires i <= j < |s| && IsLink(s, j, c, p) && NoneBetween(s, i, j)
    ensures FirstLink(s, i) == Some(j) && LinkAt(s, j) == Some((c, p))
    decreases j - i
  {
    hide LinkAt, IsLink;
    LinkAtIs(s, i);
    if i < j {
      FirstLinkIs(s, i + 1, j, c, p);
    }
  }

  /** The reading of `s` from `i` on. */
  function Parse(s: string, i: nat): Markdown
    requires i <= |s|
    decreases |s| - i
  {
    match FirstLink(s, i)
    case None => Tail(s[i..])
    case Some(j) =>
      LinkAtIs(s, j);
      var (c, p) := LinkAt(s, j).value;
      Link(s[i..j], s[j + 1..c], s[c + 2..p], Parse(s, p + 1))
  }

  // ---------------------------------------------------------------- what can be read back

  /** The first `]` after `j` stands at `c`, in the same text and not before a `(`. */
  ghost predicate ClosesAt(text: string, j: nat, c: nat) {
    && j < c < |text| && text[c] == ']'
    && (forall k :: j < k < c ==> text[k] != ']')
    && (c + 1 < |text| ==> text[c + 1] != '(')
  }

  /** Every `[` in the text before a link is closed, and does not start a link itself. */
  ghost predicate Settled(text: string) {
    forall j: nat :: j < |text| && text[j] == '[' ==> exists c: nat :: ClosesAt(text, j, c)
  }

  ghost predicate WellFormed(m: Markdown) {
    match m
    case Tail(text) => NoneBetween(text, 0, |text|)
    case Link(before, shown, url, rest) => Settled(before) && ']' !in shown && ')' !in url && WellFormed(rest)
  }

  /** A link does not depend on what stands before it. */
  lemma {:induction false} LinkInSuffix(s: string, i: nat, j: nat, c: nat, p: nat)
    requires i <= |s|
    ensures IsLink(s[i..], j, c, p) <==> IsLink(s, i + j, i + c, i + p)
  {
    var t := s[i..];
    assert forall k :: 0 <= k < |t| ==> t[k] == s[i + k];
    assert forall k :: i <= k < |s| ==> s[k] == t[k - i];
  }

  lemma {:induction false} SuffixHasNone(s: string, i: nat)
    requires i <= |s|
    ensures NoneBetween(s[i..], 0, |s| - i) <==> NoneBetween(s, i, |s|)
  {
    hide IsLink;
    if NoneBetween(s, i, |s|) {
      forall j: nat, c: nat, p: nat | j < |s| - i ensures !IsLink(s[i..], j, c, p) { LinkInSuffix(s, i, j, c, p); }
    }
    if NoneBetween(s[i..], 0, |s| - i) {
      forall j: nat, c: nat, p: nat | i <= j < |s| ensures !IsLink(s, j, c, p) {
        if IsLink(s, j, c, p) {
          LinkGoesForward(s, j, c, p);
          LinkInSuffix(s, i, j - i, c - i, p - i);
        }
      }
    }
  }

  lemma {:induction false} LinkGoesForward(s: string, j: nat, c: nat, p: nat)
    requires IsLink(s, j, c, p)
    ensures j < c < p < |s|
  {
  }

  lemma {:induction false} FirstOf(s: string, c: char, from: nat, last: nat) returns (at: nat)
    requires from <= last < |s| && s[last] == c
    ensures from <= at <= last && s[at] == c && forall k :: from <= k < at ==> s[k] != c
  {
    at := from;
    while s[at] != c
      invariant from <= at <= last
      invariant forall k :: from <= k < at ==> s[k] != c
      decreases last - at
    {
      at := at + 1;
    }
  }

  /** What stands before the first link is settled. */
  lemma {:induction false} BeforeIsSettled(s: string, i: nat, j: nat, c: nat, p: nat)
    requires i <= j && IsLink(s, j, c, p) && NoneBetween(s, i, j)
    ensures Settled(s[i..j])
  {
    var text := s[i..j];
    forall k: nat | k < |text| && text[k] == '[' ensures exists d: nat :: ClosesAt(text, k, d) {
      var at := i + k;
      var d := FirstOf(s, ']', at + 1, c);
      if s[d + 1] == '(' {
        var q := FirstOf(s, ')', d + 2, p);
        assert IsLink(s, at, d, q);
      }
      assert d != j && d < j;
      assert forall m :: k < m < d - i ==> text[m] == s[i + m];
      assert ClosesAt(text, k, d - i);
    }
  }

  lemma {:induction false} PrintParse(s: string, i: nat)
    requires i <= |s|
    ensures Print(Parse(s, i)) == s[i..] && WellFormed(Parse(s, i))
    decreases |s| - i
  {
    hide LinkAt, NoneBetween, Settled, IsLink, Parse;
    FirstLinkIsFirst(s, i);
    match FirstLink(s, i)
    case None =>
      NoFirstLink(s, i);
      SuffixHasNone(s, i);
    case Some(j) =>
      LinkAtIs(s, j);
      var (c, p) := LinkAt(s, j).value;
      ParseAt(s, i, j, c, p);
      PrintParse(s, p + 1);
      BeforeIsSettled(s, i, j, c, p);
      PiecesOf(s, i, j, c, p);
  }

  lemma {:induction false} PiecesOf(s: string, i: nat, j: nat, c: nat, p: nat)
    requires i <= j && IsLink(s, j, c, p)
    ensures s[i..] == s[i..j] + "[" + s[j + 1..c] + "](" + s[c + 2..p] + ")" + s[p + 1..]
    ensures ']' !in s[j + 1..c] && ')' !in s[c + 2..p]
  {
    assert s[i..] == s[i..j] + s[j..j + 1] + s[j + 1..c] + s[c..c + 2] + s[c + 2..p] + s[p..p + 1] + s[p + 1..];
  }

  /** Where the parts of a printed link stand. */
  lemma {:induction false} Layout(pre: string, before: string, shown: string, url: string, rest: string)
    ensures var s, j := pre + (before + "[" + shown + "](" + url + ")" + rest), |pre| + |before|;
            var c := j + 1 + |shown|;
            var p := c + 2 + |url|;
            && p < |s| && s[j] == '[' && s[c] == ']' && s[c + 1] == '(' && s[p] == ')'
            && s[|pre|..j] == before && s[j + 1..c] == shown && s[c + 2..p] == url && s[p + 1..] == rest
            && s[..p + 1] + rest == s
  {
  }

  /** A well-formed link is found where it was printed. */
  lemma {:induction false} PrintedLinkIsFirst(s: string, i: nat, j: nat, c: nat, p: nat)
    requires i <= j < c && c + 1 < p < |s|
    requires s[j] == '[' && s[c] == ']' && s[c + 1] == '(' && s[p] == ')'
    requires Settled(s[i..j]) && ']' !in s[j + 1..c] && ')' !in s[c + 2..p]
    ensures IsLink(s, j, c, p) && NoneBetween(s, i, j)
  {
    assert forall k :: j < k < c ==> s[k] == s[j + 1..c][k - j - 1];
    assert forall k :: c + 1 < k < p ==> s[k] == s[c + 2..p][k - c - 2];
    var text := s[i..j];
    forall k: nat, d: nat, q: nat | i <= k < j ensures !IsLink(s, k, d, q) {
      if s[k] == '[' {
        assert text[k - i] == '[';
        var e: nat :| ClosesAt(text, k - i, e);
        assert text[e] == s[i + e];
        assert forall m :: k < m < i + e ==> s[m] == text[m - i];
        if e + 1 < |text| { assert text[e + 1] == s[i + e + 1]; }
      }
    }
  }

  lemma {:induction false} ParseAt(s: string, i: nat, j: nat, c: nat, p: nat)
    requires i <= j < |s| && IsLink(s, j, c, p) && NoneBetween(s, i, j)
    ensures j < c && c + 1 < p < |s|
    ensures Parse(s, i) == Link(s[i..j], s[j + 1..c], s[c + 2..p], Parse(s, p + 1))
  {
    hide NoneBetween, LinkAt, FirstLink;
    FirstLinkIs(s, i, j, c, p);
  }

  /** A link with these parts, printed behind `pre`, is read back, and then what follows it. */
  lemma {:induction false} LinkReadsBack(pre: string, before: string, shown: string, url: string, tail: string)
    requires Settled(before) && ']' !in shown && ')' !in url
    ensures var s := pre + (before + "[" + shown + "](" + url + ")" + tail);
            var p := |pre| + |before| + |shown| + |url| + 3;
            && p < |s| && s[..p + 1] + tail == s
            && Parse(s, |pre|) == Link(before, shown, url, Parse(s, p + 1))
  {
    hide NoneBetween, Settled, IsLink, Parse;
    var s := pre + (before + "[" + shown + "](" + url + ")" + tail);
    Layout(pre, before, shown, url, tail);
    var j := |pre| + |before|;
    var c := j + 1 + |shown|;
    var p := c + 2 + |url|;
    PrintedLinkIsFirst(s, |pre|, j, c, p);
    ParseAt(s, |pre|, j, c, p);
  }

  lemma {:induction false} WellFormedReadsBack(pre: string, m: Markdown)
    requires WellFormed(m)
    ensures Parse(pre + Print(m), |pre|) == m
    decreases m
  {
    hide NoneBetween, Settled, Parse;
    var s := pre + Print(m);
    match m
    case Tail(text) =>
      assert s[|pre|..] == text;
      SuffixHasNone(s, |pre|);
      NoFirstLink(s, |pre|);
    case Link(before, shown, url, rest) =>
      LinkReadsBack(pre, before, shown, url, Print(rest));
      WellFormedReadsBack(s[..|pre| + |before| + |shown| + |url| + 4], rest);
  }

  lemma {:induction false} NoFirstLink(s: string, i: nat)
    requires i <= |s| && NoneBetween(s, i, |s|)
    ensures Parse(s, i) == Tail(s[i..])
  {
    var r := FirstLink(s, i);
    if r.Some? { LinkAtIs(s, r.value); }
  }

  /** The reading loses nothing, and undoes printing exactly for the well-formed texts. */
  lemma {:induction false} ParsePrint(m: Markdown)
    ensures Parse(Print(m), 0) == m <==> WellFormed(m)
  {
    hide Parse, Print;
    assert "" + Print(m) == Print(m);
    if WellFormed(m) {
      WellFormedReadsBack("", m);
    } else {
      PrintParse(Print(m), 0);
    }
  }

  // ---------------------------------------------------------------- the scan

  /** `collapse_links` */
  method CollapseLinks(s: string) returns (out: string)
    ensures out == Collapsed(Parse(s, 0))
    ensures forall m | WellFormed(m) && s == Print(m) :: out == Collapsed(m)
    ensures NoneBetween(out, 0, |out|) <==> Quiet(Parse(s, 0))
  {
    hide Parse, Collapsed, WellFormed, Find, Quiet, NoneBetween;
    out := "";
    var i := 0;
    assert "" + Collapsed(Parse(s, 0)) == Collapsed(Parse(s, 0));
    while i < |s|
      invariant 0 <= i <= |s|
      invariant out + Collapsed(Parse(s, i)) == Collapsed(Parse(s, 0))
    {
      ScanStep(s, i);
      if s[i] == '[' {
        var close := Find(s, "]", i + 1);
        if close.Some? {
          var textEnd := close.value;
          if textEnd + 1 < |s| && s[textEnd + 1] == '(' {
            var paren := Find(s, ")", textEnd + 1);
            if paren.Some? {
              Associates(out, s[i + 1..textEnd], Collapsed(Parse(s, paren.value + 1)));
              out := out + s[i + 1..textEnd];
              i := paren.value + 1;
              continue;
            }
          }
        }
      }
      Associates(out, [s[i]], Collapsed(Parse(s, i + 1)));
      out := out + [s[i]];
      i := i + 1;
    }
    ScanEnd(s);
    PrintParse(s, 0);
    NoLinkLeftIff(Parse(s, 0));
    forall m | WellFormed(m) && s == Print(m) ensures out == Collapsed(m) {
      ParsePrint(m);
    }
  }

  /** What one turn of the loop does to the part not yet scanned. */
  lemma {:induction false} ScanStep(s: string, i: nat)
    requires i < |s|
    ensures match LinkAt(s, i)
            case Some(r) => i < r.0 < r.1 < |s|
              && Collapsed(Parse(s, i)) == s[i + 1..r.0] + Collapsed(Parse(s, r.1 + 1))
            case None => Collapsed(Parse(s, i)) == [s[i]] + Collapsed(Parse(s, i + 1))
  {
    hide LinkAt, IsLink, Find;
    LinkAtIs(s, i);
    match LinkAt(s, i)
    case Some(r) =>
      LinkGoesForward(s, i, r.0, r.1);
      assert s[i..i] == "" && "" + s[i + 1..r.0] == s[i + 1..r.0];
    case None =>
      ScanLiteral(s, i);
  }

  lemma {:induction false} ScanLiteral(s: string, i: nat)
    requires i < |s| && LinkAt(s, i).None?
    ensures Collapsed(Parse(s, i)) == [s[i]] + Collapsed(Parse(s, i + 1))
  {
    hide LinkAt, IsLink, FirstLink, Parse, NoneBetween;
    FirstLinkIsFirst(s, i + 1);
    var first := FirstLink(s, i + 1);
    if first.None? {
      NoneWith(s, i, |s|);
      NoFirstLink(s, i);
      NoFirstLink(s, i + 1);
      assert s[i..] == [s[i]] + s[i + 1..];
    } else {
      var j := first.value;
      LinkAtIs(s, j);
      var (c, p) := LinkAt(s, j).value;
      NoneWith(s, i, j);
      ParseAt(s, i, j, c, p);
      ParseAt(s, i + 1, j, c, p);
      assert s[i..j] == [s[i]] + s[i + 1..j];
      PutInFront([s[i]], s[i + 1..j], s[j + 1..c], Collapsed(Parse(s, p + 1)));
    }
  }

  lemma {:induction false} NoneWith(s: string, i: nat, n: nat)
    requires i < |s| && LinkAt(s, i).None? && NoneBetween(s, i + 1, n)
    ensures NoneBetween(s, i, n)
  {
    hide LinkAt, IsLink;
    LinkAtIs(s, i);
  }

  lemma {:induction false} PutInFront(a: string, b: string, c: string, d: string)
    ensures a + b + c + d == a + (b + c + d)
  {
  }

  lemma {:induction false} ScanEnd(s: string)
    ensures Parse(s, |s|) == Tail("") && forall out: string :: out + Collapsed(Parse(s, |s|)) == out
  {
  }

  // ---------------------------------------------------------------- what is left

  /** `t` goes on as an address does: a `(` at once and a `)` later. */
  predicate Addressed(t: string) {
    t != "" && t[0] == '(' && ')' in t[1..]
  }

  /** A `[` at `j` whose first `]` stands at `c` and has an address behind it. */
  ghost predicate LinkHead(s: string, j: nat, c: nat) {
    && j < c < |s| && s[j] == '[' && s[c] == ']'
    && (forall k :: j < k < c ==> s[k] != ']')
    && Addressed(s[c + 1..])
  }

  ghost predicate NoHead(s: string) {
    forall j: nat, c: nat :: !LinkHead(s, j, c)
  }

  /** `t` ends in a `]` that is the first one after one of its `[`. */
  ghost predicate EndsBracketed(t: string) {
    exists j: nat :: j + 1 < |t| && t[j] == '[' && t[|t| - 1] == ']' && forall k :: j < k < |t| - 1 ==> t[k] != ']'
  }

  /** The first `]` of `t` has an address behind it. */
  ghost predicate ClosesLink(t: string) {
    exists c: nat :: c < |t| && t[c] == ']' && (forall k :: 0 <= k < c ==> t[k] != ']') && Addressed(t[c + 1..])
  }

  /** No border of the collapsed text joins two pieces to a link. */
  ghost predicate Quiet(m: Markdown) {
    match m
    case Tail(_) => true
    case Link(before, shown, _, rest) =>
      var after := Collapsed(rest);
      && !(EndsBracketed(before) && Addressed(shown + after))
      && !('[' in shown && ClosesLink(after))
      && Quiet(rest)
  }

  lemma {:induction false} HeadIsLink(s: string, j: nat, c: nat)
    ensures LinkHead(s, j, c) <==> exists p: nat :: IsLink(s, j, c, p)
  {
    if LinkHead(s, j, c) {
      var t := s[c + 1..];
      var i :| 0 <= i < |t[1..]| && t[1..][i] == ')';
      assert s[c + 2 + i] == ')';
      var p := FirstOf(s, ')', c + 2, c + 2 + i);
      assert IsLink(s, j, c, p);
    }
    if p: nat :| IsLink(s, j, c, p) {
      assert s[c + 1..][1..][p - c - 2] == ')';
    }
  }

  lemma {:induction false} NoHeadIsNoLink(s: string)
    ensures NoHead(s) <==> NoneBetween(s, 0, |s|)
  {
    hide LinkHead, IsLink;
    if NoHead(s) {
      forall j: nat, c: nat, p: nat ensures !IsLink(s, j, c, p) { HeadIsLink(s, j, c); }
    }
    if NoneBetween(s, 0, |s|) {
      forall j: nat, c: nat ensures !LinkHead(s, j, c) {
        HeadIsLink(s, j, c);
        if p: nat :| IsLink(s, j, c, p) { LinkGoesForward(s, j, c, p); }
      }
    }
  }

  lemma {:induction false} HeadInSuffix(a: string, b: string, j: nat, c: nat)
    requires |a| <= j < c
    ensures LinkHead(a + b, j, c) <==> LinkHead(b, j - |a|, c - |a|)
  {
    var s := a + b;
    assert forall k :: |a| <= k < |s| ==> s[k] == b[k - |a|];
    assert forall k :: 0 <= k < |b| ==> b[k] == s[k + |a|];
    if c < |s| { assert s[c + 1..] == b[c - |a| + 1..]; }
  }

  /** A `[` before a border whose first `]` stands before it too. */
  lemma {:induction false} HeadInSettled(a: string, b: string)
    requires Settled(a)
    ensures (exists j: nat, c: nat :: j < |a| && LinkHead(a + b, j, c)) <==> EndsBracketed(a) && Addressed(b)
  {
    var s := a + b;
    assert forall k :: 0 <= k < |a| ==> s[k] == a[k];
    assert s[|a|..] == b;
    if j: nat, c: nat :| j < |a| && LinkHead(s, j, c) {
      assert a[j] == '[';
      var d: nat :| ClosesAt(a, j, d);
      assert c == d;
      assert s[c + 1..][0] == s[c + 1];
      assert c + 1 == |a|;
      assert EndsBracketed(a);
    }
    if EndsBracketed(a) && Addressed(b) {
      var j: nat :| j + 1 < |a| && a[j] == '[' && a[|a| - 1] == ']' && forall k :: j < k < |a| - 1 ==> a[k] != ']';
      assert LinkHead(s, j, |a| - 1);
    }
  }

  /** A `[` in a text without `]`. */
  lemma {:induction false} HeadInShown(a: string, b: string)
    requires ']' !in a
    ensures (exists j: nat, c: nat :: j < |a| && LinkHead(a + b, j, c)) <==> '[' in a && ClosesLink(b)
  {
    hide LinkHead, ClosesLink;
    if j: nat, c: nat :| j < |a| && LinkHead(a + b, j, c) {
      HeadClosesBehind(a, b, j, c);
    }
    if '[' in a && ClosesLink(b) {
      var j, c := HeadBefore(a, b);
    }
  }

  lemma {:induction false} HeadClosesBehind(a: string, b: string, j: nat, c: nat)
    requires ']' !in a && j < |a| && LinkHead(a + b, j, c)
    ensures '[' in a && ClosesLink(b)
  {
    var s := a + b;
    assert forall k :: 0 <= k < |a| ==> s[k] == a[k];
    var d := c - |a|;
    assert s[c + 1..] == b[d + 1..] && b[d] == s[c];
    assert forall k :: 0 <= k < d ==> b[k] == s[k + |a|];
  }

  lemma {:induction false} HeadBefore(a: string, b: string) returns (j: nat, c: nat)
    requires ']' !in a && '[' in a && ClosesLink(b)
    ensures j < |a| && LinkHead(a + b, j, c)
  {
    var s := a + b;
    hide Addressed;
    j :| j < |a| && a[j] == '[';
    var d: nat :| d < |b| && b[d] == ']' && (forall k :: 0 <= k < d ==> b[k] != ']') && Addressed(b[d + 1..]);
    c := |a| + d;
    assert s[c + 1..] == b[d + 1..];
    forall k | j < k < c ensures s[k] != ']' {
      if k < |a| { assert s[k] == a[k] && a[k] in a; } else { assert s[k] == b[k - |a|]; }
    }
  }

  /** Links of a joined text start in its front, or are links of its back. */
  lemma {:induction false} HeadsOfJoin(a: string, b: string)
    ensures NoHead(a + b) <==> (forall j: nat, c: nat :: j < |a| ==> !LinkHead(a + b, j, c)) && NoHead(b)
  {
    hide LinkHead;
    if NoHead(a + b) {
      forall j: nat, c: nat ensures !LinkHead(b, j, c) {
        if LinkHead(b, j, c) {
          HeadGoesForward(b, j, c);
          HeadInSuffix(a, b, |a| + j, |a| + c);
        }
      }
    }
    if (forall j: nat, c: nat :: j < |a| ==> !LinkHead(a + b, j, c)) && NoHead(b) {
      forall j: nat, c: nat ensures !LinkHead(a + b, j, c) {
        if LinkHead(a + b, j, c) {
          HeadGoesForward(a + b, j, c);
          if j >= |a| { HeadInSuffix(a, b, j, c); }
        }
      }
    }
  }

  lemma {:induction false} HeadGoesForward(s: string, j: nat, c: nat)
    requires LinkHead(s, j, c)
    ensures j < c
  {
  }

  lemma {:induction false} QuietHasNoHead(m: Markdown)
    requires WellFormed(m)
    ensures NoHead(Collapsed(m)) <==> Quiet(m)
    decreases m
  {
    hide LinkHead, EndsBracketed, ClosesLink, Addressed, NoneBetween, Settled;
    match m
    case Tail(text) =>
      NoHeadIsNoLink(text);
    case Link(before, shown, url, rest) =>
      var after := Collapsed(rest);
      Associates(before, shown, after);
      HeadsOfJoin(before, shown + after);
      HeadInSettled(before, shown + after);
      HeadsOfJoin(shown, after);
      HeadInShown(shown, after);
      QuietHasNoHead(rest);
  }

  /** Collapsing leaves no link exactly when no border joins two pieces to one. */
  lemma {:induction false} NoLinkLeftIff(m: Markdown)
    requires WellFormed(m)
    ensures NoneBetween(Collapsed(m), 0, |Collapsed(m)|) <==> Quiet(m)
  {
    QuietHasNoHead(m);
    NoHeadIsNoLink(Collapsed(m));
  }

  /** Collapsing can leave a link: one shown as a link itself loses only the inner one. */
  lemma {:induction false} NestedLinkSurvives(a: string, b: string, c: string)
    requires ']' !in a && ')' !in b && ')' !in c && '[' !in c
    ensures var nested := Link("", "[" + a, b, Tail("](" + c + ")"));
            && WellFormed(nested)
            && Print(nested) == "[[" + a + "](" + b + ")](" + c + ")"
            && Collapsed(nested) == Print(Link("", a, c, Tail("")))
  {
    hide WellFormed, Print, Collapsed;
    NestedIsWellFormed(a, b, c);
    NestedPrinted(a, b, c);
    NestedCollapsed(a, b, c);
  }

  lemma {:induction false} NestedPrinted(a: string, b: string, c: string)
    ensures Print(Link("", "[" + a, b, Tail("](" + c + ")"))) == "[[" + a + "](" + b + ")](" + c + ")"
  {
    NestedText(a, b, c);
  }

  lemma {:induction false} NestedCollapsed(a: string, b: string, c: string)
    ensures Collapsed(Link("", "[" + a, b, Tail("](" + c + ")"))) == Print(Link("", a, c, Tail("")))
  {
    assert "" + ("[" + a) == "[" + a == "" + "[" + a;
    assert Collapsed(Link("", "[" + a, b, Tail("](" + c + ")"))) == "[" + a + ("](" + c + ")");
    assert "[" + a + ("](" + c + ")") == "[" + a + "](" + c + ")" + "";
  }

  lemma {:induction false} NestedIsWellFormed(a: string, b: string, c: string)
    requires ']' !in a && ')' !in b && '[' !in c
    ensures WellFormed(Link("", "[" + a, b, Tail("](" + c + ")")))
  {
    hide NoneBetween;
    TextAfterLabel(c);
  }

  lemma {:induction false} NestedText(a: string, b: string, c: string)
    ensures "" + "[" + ("[" + a) + "](" + b + ")" + ("](" + c + ")") == "[[" + a + "](" + b + ")](" + c + ")"
  {
    assert "" + "[" + ("[" + a) == "[[" + a;
    Associates("[[" + a + "](" + b, ")", "](" + c + ")");
    assert ")" + ("](" + c + ")") == ")](" + c + ")";
  }

  lemma {:induction false} TextAfterLabel(c: string)
    requires '[' !in c
    ensures var text := "](" + c + ")"; NoneBetween(text, 0, |text|)
  {
    var text := "](" + c + ")";
    assert forall k :: 2 <= k < |text| - 1 ==> text[k] == c[k - 2];
  }
}
