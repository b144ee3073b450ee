/**
 The prompt template interpolator (`var_interpolate_at` and the placeholder resolution of
 flowcat-agent/src/engine.rs).
 */
module Template {
  import opened Text

  // ---------------------------------------------------------------- templates as data

  /** Literal text and placeholders in alternation, ended by literal text. */
  datatype Template =
    | Tail(text: string)
    | More(literal: string, hole: string, rest: Template)

  function Print(t: Template): string {
    match t
    case Tail(text) => text
    case More(literal, hole, rest) => literal + "{{" + hole + "}}" + Print(rest)
  }

  /** What a template stands for once every placeholder has a value. */
  function Render(t: Template, resolve: string -> string): string {
    match t
    case Tail(text) => text
    case More(literal, hole, rest) => literal + resolve(hole) + Render(rest, resolve)
  }

  /** The reading of a string: the leftmost `{{`, up to the leftmost `}}` after it, again and again. */
  function Parse(s: string): Template
    decreases |s|
  {
    match Find(s, "{{", 0)
    case None => Tail(s)
    case Some(open) =>
      var after := s[open + 2..];
      match Find(after, "}}", 0)
      case None => Tail(s)
      case Some(close) => More(s[..open], after[..close], Parse(after[close + 2..]))
  }

  /** No two `c` in a row in `s`, and none at its end. */
  predicate Apart(s: string, c: char) {
    && (forall i :: 0 < i < |s| ==> !(s[i - 1] == c && s[i] == c))
    && (s != "" ==> s[|s| - 1] != c)
  }

  /** No `{{` in `s` is followed by a `}}`. */
  predicate Open(s: string) {
    match Find(s, "{{", 0)
    case None => true
    case Some(open) => Find(s[open + 2..], "}}", 0).None?
  }

  predicate WellFormed(t: Template) {
    match t
    case Tail(text) => Open(text)
    case More(literal, hole, rest) => Apart(literal, '{') && Apart(hole, '}') && WellFormed(rest)
  }

  // ---------------------------------------------------------------- printing and parsing

  lemma {:induction false} FindDouble(s: string, c: char, rest: string)
    requires Apart(s, c)
    ensures Find(s + [c, c] + rest, [c, c], 0) == Some(|s|)
  {
    var t := s + [c, c] + rest;
    assert t[|s|..|s| + 2] == [c, c];
    forall i: nat | i < |s| ensures !OccursAt(t, [c, c], i) {
      assert t[i..i + 2] == [t[i], t[i + 1]] && t[i] == s[i];
      if i + 1 < |s| { assert t[i + 1] == s[i + 1]; }
    }
    FindIs(t, [c, c], 0, |s|);
  }

  lemma {:induction false} BeforeDouble(t: string, c: char)
    requires Find(t, [c, c], 0).Some?
    ensures var at := Find(t, [c, c], 0).value; Apart(t[..at], c) && t == t[..at] + [c, c] + t[at + 2..]
  {
    var at := Find(t, [c, c], 0).value;
    FindIsFirst(t, [c, c], 0);
    assert t[at..at + 2] == [c, c];
    forall i | 0 < i <= at ensures !(t[i - 1] == c && t[i] == c) {
      assert !OccursAt(t, [c, c], i - 1);
      assert t[i - 1..i + 1] == [t[i - 1], t[i]];
    }
    if at > 0 { assert t[at] == t[at..at + 2][0]; }
  }

  /** No text is lost or invented by the reading, and the reading is well formed. */
  lemma {:induction false} PrintParse(s: string)
    ensures Print(Parse(s)) == s && WellFormed(Parse(s))
    decreases |s|
  {
    match Find(s, "{{", 0)
    case None =>
    case Some(open) =>
      BeforeDouble(s, '{');
      var after := s[open + 2..];
      match Find(after, "}}", 0)
      case None =>
      case Some(close) =>
        BeforeDouble(after, '}');
        PrintParse(after[close + 2..]);
        Associates(s[..open] + "{{", after[..close], "}}");
        Associates(s[..open] + "{{", after[..close] + "}}", after[close + 2..]);
  }

  /** The reading undoes printing exactly for the well-formed templates. */
  lemma {:induction false} ParsePrint(t: Template)
    ensures Parse(Print(t)) == t <==> WellFormed(t)
  {
    if WellFormed(t) {
      WellFormedReadsBack(t);
    } else {
      PrintParse(Print(t));
    }
  }

  lemma {:induction false} WellFormedReadsBack(t: Template)
    requires WellFormed(t)
    ensures Parse(Print(t)) == t
    decreases t
  {
    match t
    case Tail(text) =>
    case More(literal, hole, rest) =>
      var s := Print(t);
      var after := hole + "}}" + Print(rest);
      assert s == literal + "{{" + after by {
        Associates(literal + "{{", hole, "}}");
        Associates(literal + "{{", hole + "}}", Print(rest));
      }
      FindDouble(literal, '{', after);
      FindDouble(hole, '}', Print(rest));
      assert s[..|literal|] == literal && s[|literal| + 2..] == after;
      assert after[..|hole|] == hole && after[|hole| + 2..] == Print(rest);
      WellFormedReadsBack(rest);
  }

  /** With every placeholder standing for itself, rendering is printing. */
  lemma {:induction false} RenderOfHoles(t: Template, resolve: string -> string)
    requires forall hole :: resolve(hole) == "{{" + hole + "}}"
    ensures Render(t, resolve) == Print(t)
  {
    match t
    case Tail(text) =>
    case More(literal, hole, rest) =>
      RenderOfHoles(rest, resolve);
      assert literal + ("{{" + hole + "}}") == literal + "{{" + hole + "}}";
  }

  // ---------------------------------------------------------------- the escape pass

  /** `replace("\\n", "\n")`: every backslash followed by `n` becomes one newline. */
  function Unescape(s: string): string {
    if |s| < 2 then s
    else if s[0] == '\\' && s[1] == 'n' then "\n" + Unescape(s[2..])
    else [s[0]] + Unescape(s[1..])
  }

  /** `a` ends in a backslash and `b` starts with an `n`. */
  predicate Joins(a: string, b: string) {
    a != "" && b != "" && a[|a| - 1] == '\\' && b[0] == 'n'
  }

  lemma {:induction false} UnescapeApart(a: string, b: string)
    requires !Joins(a, b)
    ensures Unescape(a + b) == Unescape(a) + Unescape(b)
    decreases |a|
  {
    if a == "" {
      assert a + b == b;
    } else if |a| == 1 {
      UnescapeOne(a[0], b);
      assert a == [a[0]];
    } else if a[0] == '\\' && a[1] == 'n' {
      assert (a + b)[2..] == a[2..] + b;
      UnescapeApart(a[2..], b);
      Associates("\n", Unescape(a[2..]), Unescape(b));
    } else {
      assert (a + b)[1..] == a[1..] + b;
      UnescapeApart(a[1..], b);
      Associates([a[0]], Unescape(a[1..]), Unescape(b));
    }
  }

  lemma {:induction false} UnescapeOne(c: char, b: string)
    requires !Joins([c], b)
    ensures Unescape([c] + b) == [c] + Unescape(b) && Unescape([c]) == [c]
  {
    assert ([c] + b)[1..] == b;
    if b == "" { assert [c] + b == [c]; }
  }

  /** Every joining border costs one character. */
  lemma {:induction false} UnescapeLength(a: string, b: string)
    ensures |Unescape(a + b)| == |Unescape(a)| + |Unescape(b)| - (if Joins(a, b) then 1 else 0)
  {
    if Joins(a, b) {
      var front, back := a[..|a| - 1], b[1..];
      assert a == front + "\\" && b == "n" + back;
      assert a + b == front + ("\\n" + back);
      UnescapeApart(front, "\\n" + back);
      UnescapeApart(front, "\\");
      UnescapeApart("n", back);
      assert ("\\n" + back)[2..] == back;
    } else {
      UnescapeApart(a, b);
    }
  }

  /** The escape pass works piece by piece exactly when no piece border forms an escape of its own. */
  lemma {:induction false} UnescapePiecewise(a: string, b: string)
    ensures Unescape(a + b) == Unescape(a) + Unescape(b) <==> !Joins(a, b)
  {
    UnescapeLength(a, b);
    if !Joins(a, b) { UnescapeApart(a, b); }
  }

  /** A text without the escape is left alone. */
  lemma {:induction false} UnescapeKeeps(s: string)
    requires forall i :: 0 < i < |s| ==> !(s[i - 1] == '\\' && s[i] == 'n')
    ensures Unescape(s) == s
  {
    if |s| >= 2 {
      assert !(s[1 - 1] == '\\' && s[1] == 'n');
      forall i | 0 < i < |s[1..]| ensures !(s[1..][i - 1] == '\\' && s[1..][i] == 'n') {
        assert !(s[i + 1 - 1] == '\\' && s[i + 1] == 'n');
      }
      UnescapeKeeps(s[1..]);
    }
  }

  /** Each escape becomes one newline, wherever it stands, and nothing around it changes. */
  lemma {:induction false} UnescapeReplaces(a: string, b: string)
    ensures Unescape(a + "\\n" + b) == Unescape(a) + "\n" + Unescape(b)
  {
    var rest := "\\n" + b;
    Associates(a, "\\n", b);
    UnescapeApart(a, rest);
    assert rest[2..] == b;
    Associates(Unescape(a), "\n", Unescape(b));
  }

  /** The literals and values of a template, in order. */
  function Pieces(t: Template, resolve: string -> string): seq<string> {
    match t
    case Tail(text) => [text]
    case More(literal, hole, rest) => [literal, resolve(hole)] + Pieces(rest, resolve)
  }

  function UnescapeAll(pieces: seq<string>): (r: seq<string>)
    ensures |r| == |pieces|
  {
    seq(|pieces|, i requires 0 <= i < |pieces| => Unescape(pieces[i]))
  }

  lemma {:induction false} FlattenFront(piece: string, pieces: seq<string>)
    ensures Flatten([piece] + pieces) == piece + Flatten(pieces)
    decreases |pieces|
  {
    var all := [piece] + pieces;
    if pieces == [] {
      assert all[..0] == [] && Flatten(all) == "" + piece;
    } else {
      var front, last := pieces[..|pieces| - 1], pieces[|pieces| - 1];
      FlattenFront(piece, front);
      assert all[..|all| - 1] == [piece] + front;
      Associates(piece, Flatten(front), last);
    }
  }

  lemma {:induction false} RenderIsFlat(t: Template, resolve: string -> string)
    ensures Render(t, resolve) == Flatten(Pieces(t, resolve))
  {
    match t
    case Tail(text) =>
      FlattenFront(text, []);
      assert [text] + [] == [text];
    case More(literal, hole, rest) =>
      RenderIsFlat(rest, resolve);
      var more := Pieces(rest, resolve);
      FlattenFront(resolve(hole), more);
      FlattenFront(literal, [resolve(hole)] + more);
      assert [literal] + ([resolve(hole)] + more) == [literal, resolve(hole)] + more;
      Associates(literal, resolve(hole), Flatten(more));
  }

  /** Some border of the pieces forms an escape; empty pieces let pieces further apart meet. */
  ghost predicate SomeBorderJoins(pieces: seq<string>) {
    exists i :: 0 <= i < |pieces| && Joins(Flatten(pieces[..i]), pieces[i])
  }

  /** Over any number of pieces: equal without a joining border, strictly shorter with one. */
  lemma {:induction false} UnescapeOfPieces(pieces: seq<string>)
    ensures |Unescape(Flatten(pieces))| <= |Flatten(UnescapeAll(pieces))|
    ensures !SomeBorderJoins(pieces) ==> Unescape(Flatten(pieces)) == Flatten(UnescapeAll(pieces))
    ensures SomeBorderJoins(pieces) ==> |Unescape(Flatten(pieces))| < |Flatten(UnescapeAll(pieces))|
  {
    if pieces != [] {
      var n := |pieces| - 1;
      var front, last := pieces[..n], pieces[n];
      UnescapeOfPieces(front);
      UnescapeLength(Flatten(front), last);
      assert UnescapeAll(pieces)[..n] == UnescapeAll(front);
      BordersOfMore(pieces);
      hide Unescape, SomeBorderJoins;
      if !SomeBorderJoins(pieces) { UnescapePiecewise(Flatten(front), last); }
    }
  }

  lemma {:induction false} BordersOfMore(pieces: seq<string>)
    requires pieces != []
    ensures var n := |pieces| - 1;
            SomeBorderJoins(pieces) <==> SomeBorderJoins(pieces[..n]) || Joins(Flatten(pieces[..n]), pieces[n])
  {
    hide Flatten, Joins;
    var n := |pieces| - 1;
    var front := pieces[..n];
    assert forall i :: 0 <= i < n ==> front[..i] == pieces[..i];
    if SomeBorderJoins(front) {
      var i :| 0 <= i < |front| && Joins(Flatten(front[..i]), front[i]);
      assert Joins(Flatten(pieces[..i]), pieces[i]);
    }
    if SomeBorderJoins(pieces) {
      var i :| 0 <= i < |pieces| && Joins(Flatten(pieces[..i]), pieces[i]);
      if i < n { assert Joins(Flatten(front[..i]), front[i]); }
    }
  }

  /** The escape pass over a rendered template works literal by literal and value by value exactly
      when no border joins. */
  lemma {:induction false} RenderPiecewise(t: Template, resolve: string -> string)
    ensures Unescape(Render(t, resolve)) == Flatten(UnescapeAll(Pieces(t, resolve)))
            <==> !SomeBorderJoins(Pieces(t, resolve))
  {
    RenderIsFlat(t, resolve);
    UnescapeOfPieces(Pieces(t, resolve));
  }

  // ---------------------------------------------------------------- the interpolator

  /** A `{{` without a `}}` anywhere behind it is literal, and so is all that follows. */
  lemma {:induction false} Unterminated(s: string)
    requires Find(s, "}}", 0).None?
    ensures Parse(s) == Tail(s)
  {
    match Find(s, "{{", 0)
    case None =>
    case Some(open) =>
      var after := s[open + 2..];
      FindIsFirst(s, "}}", 0);
      forall i: nat ensures !OccursAt(after, "}}", i) {
        assert !OccursAt(s, "}}", open + 2 + i);
        if i + 2 <= |after| { assert after[i..i + 2] == s[open + 2 + i..open + 2 + i + 2]; }
      }
  }

  /** What one turn of the scanning loop does to the part not yet scanned. */
  lemma {:induction false} ScanStep(s: string, resolve: string -> string)
    requires Find(s, "{{", 0).Some?
    ensures var open := Find(s, "{{", 0).value;
            var after := s[open + 2..];
            match Find(after, "}}", 0)
            case Some(close) =>
              Render(Parse(s), resolve)
                == s[..open] + resolve(after[..close]) + Render(Parse(after[close + 2..]), resolve)
            case None =>
              Render(Parse(s), resolve) == s[..open] + "{{" + Render(Parse(after), resolve)
  {
    var open := Find(s, "{{", 0).value;
    if Find(s[open + 2..], "}}", 0).None? {
      Unterminated(s[open + 2..]);
      BeforeDouble(s, '{');
    }
  }

  /**
   `var_interpolate_at`. `resolve` gives the value of a placeholder body. The loop goes on after an
   unterminated `{{`, although its comment says that it stops; nothing can be replaced there any more.
   */
  method VarInterpolateAt(template: string, resolve: string -> string) returns (r: string)
    ensures r == Unescape(Render(Parse(template), resolve))
    ensures forall t | WellFormed(t) && template == Print(t) :: r == Unescape(Render(t, resolve))
  {
    var out, rest := "", template;
    var at := Find(rest, "{{", 0);
    assert out + Render(Parse(rest), resolve) == Render(Parse(rest), resolve);
    while at.Some?
      invariant at == Find(rest, "{{", 0)
      invariant out + Render(Parse(rest), resolve) == Render(Parse(template), resolve)
      decreases |rest|
    {
      var open := at.value;
      ScanStep(rest, resolve);
      ghost var before := out;
      out := out + rest[..open];
      var after := rest[open + 2..];
      var piece;
      ghost var scanned := rest[..open];
      match Find(after, "}}", 0) {
        case Some(close) =>
          piece := resolve(after[..close]);
          rest := after[close + 2..];
        case None =>
          piece := "{{";
          rest := after;
      }
      out := out + piece;
      Associates(before, scanned, piece);
      Associates(before, scanned + piece, Render(Parse(rest), resolve));
      at := Find(rest, "{{", 0);
    }
    out := out + rest;
    r := Unescape(out);
    forall t | WellFormed(t) && template == Print(t) ensures r == Unescape(Render(t, resolve)) {
      ParsePrint(t);
    }
  }

  // ---------------------------------------------------------------- placeholders

  /** JSON; numbers and booleans only as they print. */
  datatype Value =
    | Null
    | Text(text: string)
    | Scalar(shown: string)
    | Array(items: seq<Value>)
    | Object(fields: map<string, Value>)

  /** `split(c)`: the pieces between the separators, at least one. */
  function Split(s: string, c: char): (parts: seq<string>)
    ensures parts != []
    decreases |s|
  {
    match Find(s, [c], 0)
    case None => [s]
    case Some(at) => [s[..at]] + Split(s[at + 1..], c)
  }

  function Join(parts: seq<string>, c: char): string
    decreases |parts|
  {
    if parts == [] then ""
    else if |parts| == 1 then parts[0]
    else parts[0] + [c] + Join(parts[1..], c)
  }

  lemma {:induction false} SplitJoin(s: string, c: char)
    ensures Join(Split(s, c), c) == s
    ensures forall p :: p in Split(s, c) ==> c !in p
    decreases |s|
  {
    FindIsFirst(s, [c], 0);
    match Find(s, [c], 0)
    case None =>
      forall i | 0 <= i < |s| ensures s[i] != c {
        assert !OccursAt(s, [c], i);
        assert s[i..i + 1] == [s[i]];
      }
    case Some(at) =>
      forall i | 0 <= i < at ensures s[i] != c {
        assert !OccursAt(s, [c], i);
        assert s[i..i + 1] == [s[i]];
      }
      SplitJoin(s[at + 1..], c);
      assert s[at..at + 1] == [c];
      assert s == s[..at] + [c] + s[at + 1..];
  }

  predicate AllDigits(s: string) {
    forall i :: 0 <= i < |s| ==> IsDigit(s[i])
  }

  /** `parse::<usize>`; a number too large for 64 bits is too large for every array. */
  function ParseIndex(s: string): Option<nat> {
    var digits := if s != "" && s[0] == '+' then s[1..] else s;
    if digits != "" && AllDigits(digits) then Some(Decimal(digits)) else None
  }

  function Decimal(digits: string): nat
    requires AllDigits(digits)
  {
    if digits == "" then 0
    else
      assert IsDigit(digits[|digits| - 1]);
      10 * Decimal(digits[..|digits| - 1]) + (digits[|digits| - 1] as int - '0' as int)
  }

  /** A leading plus sign is read over, once. */
  lemma {:induction false} PlusIsReadOver(s: string)
    ensures ParseIndex("+" + s) == if s != "" && s[0] == '+' then None else ParseIndex(s)
  {
    var t := "+" + s;
    assert t[0] == '+' && t[1..] == s;
    if s != "" && s[0] == '+' { assert !IsDigit(s[0]); }
  }

  /** One path segment: a key of an object or an index into an array. */
  function Step(v: Value, part: string): Option<Value> {
    match v
    case Object(fields) => if part in fields then Some(fields[part]) else None
    case Array(items) =>
      var i := ParseIndex(part);
      if i.Some? && i.value < |items| then Some(items[i.value]) else None
    case _ => None
  }

  /** A key leads to its field, an index to the item at that place, and nothing leads out of a leaf. */
  lemma {:induction false} StepIs(v: Value, part: string, w: Value)
    ensures Step(v, part) == Some(w) <==>
              || (v.Object? && part in v.fields && v.fields[part] == w)
              || (v.Array? && exists i: nat :: i < |v.items| && ParseIndex(part) == Some(i) && v.items[i] == w)
  {
    hide ParseIndex;
    if v.Array? && ParseIndex(part).Some? && ParseIndex(part).value < |v.items| {
      assert v.items[ParseIndex(part).value] == Step(v, part).value;
    }
  }

  /** `v` at the end of a chain of steps from `root` along `parts`. */
  ghost predicate Reaches(root: Value, parts: seq<string>, v: Value)
    decreases |parts|
  {
    if parts == [] then v == root
    else exists mid :: Step(root, parts[0]) == Some(mid) && Reaches(mid, parts[1..], v)
  }

  lemma {:induction false} ReachesExtended(root: Value, parts: seq<string>, mid: Value, part: string, v: Value)
    requires Reaches(root, parts, mid) && Step(mid, part) == Some(v)
    ensures Reaches(root, parts + [part], v)
    decreases |parts|
  {
    if parts == [] {
      assert [part][1..] == [];
      assert Reaches(v, [part][1..], v);
    } else {
      var next :| Step(root, parts[0]) == Some(next) && Reaches(next, parts[1..], mid);
      ReachesExtended(next, parts[1..], mid, part, v);
      assert (parts + [part])[1..] == parts[1..] + [part];
    }
  }

  /** A chain is a chain to somewhere, and then on. */
  lemma {:induction false} ReachesSplit(root: Value, parts: seq<string>, n: nat, mid: Value, v: Value)
    requires n <= |parts| && Reaches(root, parts[..n], mid) && Reaches(root, parts, v)
    ensures Reaches(mid, parts[n..], v)
    decreases n
  {
    if n == 0 {
      assert parts[0..] == parts;
    } else {
      var next :| Step(root, parts[..n][0]) == Some(next) && Reaches(next, parts[..n][1..], mid);
      assert parts[..n][1..] == parts[1..][..n - 1] && parts[1..][n - 1..] == parts[n..];
      ReachesSplit(next, parts[1..], n - 1, mid, v);
    }
  }

  /** `get_nested`: the one value at the end of the dotted path, or none. */
  method GetNested(vars: map<string, Value>, path: string) returns (r: Option<Value>)
    ensures forall v :: Reaches(Object(vars), Split(path, '.'), v) <==> r == Some(v)
  {
    var parts := Split(path, '.');
    var cur := Object(vars);
    var n := 0;
    while n < |parts|
      invariant 0 <= n <= |parts| && Reaches(Object(vars), parts[..n], cur)
    {
      var next := Step(cur, parts[n]);
      ghost var root := Object(vars);
      if next.None? {
        forall v ensures !Reaches(root, parts, v) {
          if Reaches(root, parts, v) { ReachesSplit(root, parts, n, cur, v); }
        }
        return None;
      }
      ReachesExtended(root, parts[..n], cur, parts[n], next.value);
      assert parts[..n + 1] == parts[..n] + [parts[n]];
      cur := next.value;
      n := n + 1;
    }
    assert parts[..n] == parts;
    forall v | Reaches(Object(vars), parts, v) ensures v == cur {
      ReachesSplit(Object(vars), parts, n, cur, v);
    }
    return Some(cur);
  }

  // ---------------------------------------------------------------- whole JSON templates

  /** `var_interpolate_value`: string leaves are interpolated, keys and everything else stay. */
  function InterpolatedValue(v: Value, interpolate: string -> string): Value
    decreases v
  {
    match v
    case Text(text) => Text(interpolate(text))
    case Array(items) => Array(seq(|items|, i requires 0 <= i < |items| => InterpolatedValue(items[i], interpolate)))
    case Object(fields) => Object(map k | k in fields :: InterpolatedValue(fields[k], interpolate))
    case Null => v
    case Scalar(_) => v
  }

  lemma {:induction false} InterpolatedStep(v: Value, part: string, interpolate: string -> string)
    ensures Step(InterpolatedValue(v, interpolate), part) ==
            match Step(v, part) case None => None case Some(w) => Some(InterpolatedValue(w, interpolate))
  {
  }

  /** A path leads somewhere in the result exactly when it does in the template, and to what its end becomes. */
  lemma {:induction false} InterpolationKeepsPaths(v: Value, parts: seq<string>, end: Value,
                                                   interpolate: string -> string)
    ensures Reaches(InterpolatedValue(v, interpolate), parts, end)
            <==> exists w :: Reaches(v, parts, w) && end == InterpolatedValue(w, interpolate)
    decreases |parts|
  {
    if parts == [] {
      assert Reaches(v, parts, v);
    } else {
      InterpolatedStep(v, parts[0], interpolate);
      var next := Step(v, parts[0]);
      if next.Some? {
        InterpolationKeepsPaths(next.value, parts[1..], end, interpolate);
        if w :| Reaches(next.value, parts[1..], w) && end == InterpolatedValue(w, interpolate) {
          assert Reaches(v, parts, w);
        }
      }
    }
  }

  /** What stands at the end of a path: texts are interpolated, other leaves stay, and arrays and objects
      keep their length and their keys. */
  lemma {:induction false} InterpolatedAt(v: Value, parts: seq<string>, w: Value, interpolate: string -> string)
    returns (end: Value)
    requires Reaches(v, parts, w)
    ensures Reaches(InterpolatedValue(v, interpolate), parts, end)
    ensures w.Text? ==> end == Text(interpolate(w.text))
    ensures w.Null? || w.Scalar? ==> end == w
    ensures w.Array? ==> end.Array? && |end.items| == |w.items|
    ensures w.Object? ==> end.Object? && end.fields.Keys == w.fields.Keys
  {
    end := InterpolatedValue(w, interpolate);
    InterpolationKeepsPaths(v, parts, end, interpolate);
    assert Reaches(v, parts, w) && end == InterpolatedValue(w, interpolate);
    hide Reaches;
  }

  const FALLBACK := "fallback:"

  /** Path and fallback of a placeholder body. */
  function Fallback(inner: string): (string, Option<string>) {
    match Find(inner, "|", 0)
    case None => (Trim(inner), None)
    case Some(at) =>
      var f := Trim(inner[at + 1..]);
      (Trim(inner[..at]), Some(if FALLBACK <= f then Trim(f[|FALLBACK|..]) else f))
  }

  /** Without a bar there is no fallback, and the whole body is the path. */
  lemma {:induction false} NoFallback(inner: string)
    ensures Fallback(inner).1.None? <==> forall i :: 0 <= i < |inner| ==> inner[i] != '|'
    ensures Fallback(inner).1.None? ==> Fallback(inner).0 == Trim(inner)
  {
    hide Trim;
    FindIsFirst(inner, "|", 0);
    match Find(inner, "|", 0)
    case None =>
      forall i | 0 <= i < |inner| ensures inner[i] != '|' {
        assert !OccursAt(inner, "|", i);
        assert inner[i..i + 1] == [inner[i]];
      }
    case Some(at) => assert inner[at] == inner[at..at + 1][0] == '|';
  }

  /** The plain and the legacy spelling of a fallback agree exactly when the plain text does not itself
      look like the legacy one. */
  lemma {:induction false} FallbackSpellings(path: string, f: string)
    requires Find(path, "|", 0).None?
    ensures Fallback(path + "|" + FALLBACK + f) == (Trim(path), Some(Trim(f)))
    ensures Fallback(path + "|" + f) == Fallback(path + "|" + FALLBACK + f) <==> !(FALLBACK <= Trim(f))
  {
    FirstBar(path, FALLBACK + f);
    FirstBar(path, f);
    assert path + "|" + FALLBACK + f == path + "|" + (FALLBACK + f);
    TrimEndOfMore(f, FALLBACK, IsWhitespace);
    TrimTwice(f, IsWhitespace);
    if FALLBACK <= Trim(f) { TrimIsNoLonger(Trim(f)[|FALLBACK|..]); }
    assert Trim(FALLBACK + f) == FALLBACK + TrimEnd(f, IsWhitespace);
    assert (FALLBACK + TrimEnd(f, IsWhitespace))[|FALLBACK|..] == TrimEnd(f, IsWhitespace);
  }

  lemma {:induction false} TrimIsNoLonger(f: string)
    ensures |Trim(f)| <= |f|
  {
    TrimStartIsSuffix(f, IsWhitespace);
    TrimEndIsPrefix(TrimStart(f, IsWhitespace), IsWhitespace);
  }

  lemma {:induction false} FirstBar(path: string, rest: string)
    requires Find(path, "|", 0).None?
    ensures var t := path + "|" + rest;
            Find(t, "|", 0) == Some(|path|) && t[..|path|] == path && t[|path| + 1..] == rest
  {
    var t := path + "|" + rest;
    FindIsFirst(path, "|", 0);
    forall i: nat | i < |path| ensures !OccursAt(t, "|", i) {
      assert !OccursAt(path, "|", i);
      assert t[i..i + 1] == path[i..i + 1];
    }
    assert t[|path|..|path| + 1] == "|";
    FindIs(t, "|", 0, |path|);
  }

  /** Null and the empty string trigger the fallback. */
  predicate IsEmpty(v: Value) {
    v.Null? || v == Text("")
  }

  /** What `resolve_placeholder` yields for a looked-up value. `json` prints arrays and objects. */
  function Shown(found: Option<Value>, fallback: Option<string>, json: Value -> string): string {
    if found.Some? && !IsEmpty(found.value) then
      match found.value
      case Text(text) => text
      case Scalar(shown) => shown
      case _ => json(found.value)
    else if fallback.Some? then fallback.value
    else ""
  }

  /** `resolve_placeholder` */
  method ResolvePlaceholder(inner: string, vars: map<string, Value>, json: Value -> string) returns (r: string)
    ensures forall v :: Reaches(Object(vars), Split(Fallback(inner).0, '.'), v) && !v.Null? && v != Text("")
                        ==> r == match v case Text(text) => text case Scalar(shown) => shown case _ => json(v)
    ensures (forall v :: Reaches(Object(vars), Split(Fallback(inner).0, '.'), v) ==> v.Null? || v == Text(""))
            ==> r == (if Fallback(inner).1.Some? then Fallback(inner).1.value else "")
  {
    var (path, fallback) := Fallback(inner);
    var found := GetNested(vars, path);
    r := Shown(found, fallback, json);
  }
}
