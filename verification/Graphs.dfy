/**
 The workflow graph (flowcat-agent/src/graph.rs): parsing a list of nodes and edges into a table
 with an adjacency index, and the edge-cardinality rules.
 */
module Graphs {
  import opened Text

  datatype Kind = Start | Agent | End | Global | Trigger | Webhook | Qa | Tuner | Other

  /** `name` is the display name in the node's data, `prompt` its opening text. */
  datatype Node = Node(id: string, kind: Kind, name: Option<string>, prompt: Option<string>)

  /** `slug` is the slug of the edge's label. */
  datatype Edge = Edge(id: string, source: string, target: string, slug: Option<string>)

  datatype Graph = Graph(
    nodes: map<string, Node>,
    edges: seq<Edge>,
    startId: string,
    globalId: Option<string>,
    adjacency: map<string, seq<nat>>)

  datatype GraphError = NoStart | DanglingEdge(id: string)

  datatype Result<+T, +E> = Ok(value: T) | Err(error: E)

  // ---------------------------------------------------------------- plain scans

  /** The edges that leave `id`, in declaration order. */
  function From(edges: seq<Edge>, id: string): seq<Edge> {
    if edges == [] then []
    else From(edges[..|edges| - 1], id) + (if edges[|edges| - 1].source == id then [edges[|edges| - 1]] else [])
  }

  /** The edges that enter `id`, in declaration order. */
  function Into(edges: seq<Edge>, id: string): seq<Edge> {
    if edges == [] then []
    else Into(edges[..|edges| - 1], id) + (if edges[|edges| - 1].target == id then [edges[|edges| - 1]] else [])
  }

  lemma {:induction false} FromIsExact(edges: seq<Edge>, id: string, e: Edge)
    ensures e in From(edges, id) <==> e in edges && e.source == id
  {
    if edges != [] {
      FromIsExact(edges[..|edges| - 1], id, e);
      assert edges == edges[..|edges| - 1] + [edges[|edges| - 1]];
    }
  }

  lemma {:induction false} IntoIsExact(edges: seq<Edge>, id: string, e: Edge)
    ensures e in Into(edges, id) <==> e in edges && e.target == id
  {
    if edges != [] {
      IntoIsExact(edges[..|edges| - 1], id, e);
      assert edges == edges[..|edges| - 1] + [edges[|edges| - 1]];
    }
  }

  function Targeting(edges: seq<Edge>, id: string): set<nat> {
    set i: nat | i < |edges| && edges[i].target == id
  }

  /** There are as many of them as positions with that target. */
  lemma {:induction false} IntoCounts(edges: seq<Edge>, id: string)
    ensures |Into(edges, id)| == |Targeting(edges, id)|
  {
    if edges != [] {
      IntoCounts(edges[..|edges| - 1], id);
      TargetingMore(edges[..|edges| - 1], edges[|edges| - 1], id);
      assert edges == edges[..|edges| - 1] + [edges[|edges| - 1]];
    }
    hide Targeting;
  }

  lemma {:induction false} TargetingMore(edges: seq<Edge>, e: Edge, id: string)
    ensures |Targeting(edges + [e], id)| == |Targeting(edges, id)| + if e.target == id then 1 else 0
  {
    var more := Targeting(edges, id) + if e.target == id then {|edges|} else {};
    assert Targeting(edges + [e], id) == more;
  }

  // ---------------------------------------------------------------- the adjacency index

  /** The positions below `n` of the edges that leave `id`. */
  function Positions(edges: seq<Edge>, id: string, n: nat): (at: seq<nat>)
    requires n <= |edges|
  {
    if n == 0 then []
    else Positions(edges, id, n - 1) + (if edges[n - 1].source == id then [n - 1] else [])
  }

  function Listed(adjacency: map<string, seq<nat>>, id: string): seq<nat> {
    if id in adjacency then adjacency[id] else []
  }

  ghost predicate Indexed(adjacency: map<string, seq<nat>>, edges: seq<Edge>, n: nat)
    requires n <= |edges|
  {
    forall id :: Listed(adjacency, id) == Positions(edges, id, n)
  }

  function Pick(edges: seq<Edge>, at: seq<nat>): seq<Edge>
    requires forall i :: 0 <= i < |at| ==> at[i] < |edges|
  {
    seq(|at|, i requires 0 <= i < |at| => edges[at[i]])
  }

  lemma {:induction false} PositionsPickFrom(edges: seq<Edge>, id: string, n: nat)
    requires n <= |edges|
    ensures var at := Positions(edges, id, n); forall i :: 0 <= i < |at| ==> at[i] < n
    ensures Pick(edges, Positions(edges, id, n)) == From(edges[..n], id)
  {
    if n > 0 {
      PositionsPickFrom(edges, id, n - 1);
      assert edges[..n][..n - 1] == edges[..n - 1];
      var before := Positions(edges, id, n - 1);
      assert Pick(edges, before + [n - 1]) == Pick(edges, before) + [edges[n - 1]];
    }
  }

  /** Exactly the positions of the edges with that source, in rising order. */
  lemma {:induction false} PositionsAreExact(edges: seq<Edge>, id: string, n: nat)
    requires n <= |edges|
    ensures var at := Positions(edges, id, n);
            && (forall p: nat :: p in at <==> p < n && edges[p].source == id)
            && (forall i, j :: 0 <= i < j < |at| ==> at[i] < at[j])
  {
    if n > 0 {
      PositionsAreExact(edges, id, n - 1);
      var before := Positions(edges, id, n - 1);
      assert forall i :: 0 <= i < |before| ==> before[i] in before;
    }
  }

  /** What `parse` guarantees of the graph it returns. */
  ghost predicate Sound(g: Graph) {
    && (forall id :: id in g.nodes ==> g.nodes[id].id == id)
    && (forall e :: e in g.edges ==> e.source in g.nodes && e.target in g.nodes)
    && g.startId in g.nodes && g.nodes[g.startId].kind == Start
    && (g.globalId.Some? ==> g.globalId.value in g.nodes && g.nodes[g.globalId.value].kind == Global)
    && (g.globalId.None? ==> forall id :: id in g.nodes ==> g.nodes[id].kind != Global)
    && Indexed(g.adjacency, g.edges, |g.edges|)
  }

  /** `outgoing`, through the index: the same edges in the same order as a plain scan. */
  method Outgoing(g: Graph, id: string) returns (edges: seq<Edge>)
    requires Sound(g)
    ensures edges == From(g.edges, id)
  {
    PositionsPickFrom(g.edges, id, |g.edges|);
    assert g.edges[..|g.edges|] == g.edges;
    assert Listed(g.adjacency, id) == Positions(g.edges, id, |g.edges|);
    if id in g.adjacency {
      edges := Pick(g.edges, g.adjacency[id]);
    } else {
      edges := [];
    }
  }

  // ---------------------------------------------------------------- parsing

  /** `i` is the last position at which a node with this id stands. */
  ghost predicate LastWith(raw: seq<Node>, id: string, i: int) {
    0 <= i < |raw| && raw[i].id == id && forall j :: i < j < |raw| ==> raw[j].id != id
  }

  /** A later node with the same id replaces an earlier one. */
  ghost predicate IsTable(nodes: map<string, Node>, raw: seq<Node>) {
    && (forall n :: n in raw ==> n.id in nodes)
    && (forall id :: id in nodes ==> exists i :: LastWith(raw, id, i) && nodes[id] == raw[i])
  }

  lemma {:induction false} TableStep(nodes: map<string, Node>, raw: seq<Node>, n: Node)
    requires IsTable(nodes, raw)
    ensures IsTable(nodes[n.id := n], raw + [n])
  {
    var more, table := raw + [n], nodes[n.id := n];
    forall id | id in table ensures exists i :: LastWith(more, id, i) && table[id] == more[i] {
      if id == n.id {
        assert LastWith(more, id, |raw|);
      } else {
        var i :| LastWith(raw, id, i) && nodes[id] == raw[i];
        assert LastWith(more, id, i);
      }
    }
  }

  predicate Joined(nodes: map<string, Node>, e: Edge) {
    e.source in nodes && e.target in nodes
  }

  method Table(raw: seq<Node>) returns (nodes: map<string, Node>)
    ensures IsTable(nodes, raw)
  {
    nodes := map[];
    for i := 0 to |raw|
      invariant IsTable(nodes, raw[..i])
    {
      TableStep(nodes, raw[..i], raw[i]);
      assert raw[..i + 1] == raw[..i] + [raw[i]];
      nodes := nodes[raw[i].id := raw[i]];
    }
    assert raw[..|raw|] == raw;
  }

  /** `values().find(kind)`: some node of that kind, in whatever order the table is walked. */
  method FindKind(nodes: map<string, Node>, kind: Kind) returns (r: Option<string>)
    requires forall id :: id in nodes ==> nodes[id].id == id
    ensures r.Some? ==> r.value in nodes && nodes[r.value].kind == kind
    ensures r.None? ==> forall id :: id in nodes ==> nodes[id].kind != kind
  {
    var left := nodes.Keys;
    while left != {}
      invariant left <= nodes.Keys
      invariant forall id :: id in nodes && id !in left ==> nodes[id].kind != kind
      decreases |left|
    {
      var id :| id in left;
      if nodes[id].kind == kind {
        return Some(nodes[id].id);
      }
      left := left - {id};
    }
    return None;
  }

  lemma {:induction false} IndexStep(adjacency: map<string, seq<nat>>, edges: seq<Edge>, n: nat)
    requires n < |edges| && Indexed(adjacency, edges, n)
    ensures var s := edges[n].source; Indexed(adjacency[s := Listed(adjacency, s) + [n]], edges, n + 1)
  {
    var s := edges[n].source;
    var more := adjacency[s := Listed(adjacency, s) + [n]];
    forall id ensures Listed(more, id) == Positions(edges, id, n + 1) {
      assert Listed(adjacency, id) == Positions(edges, id, n);
    }
  }

  /** The first edge with a missing end, its source looked at first. */
  ghost predicate FirstDangling(nodes: map<string, Node>, edges: seq<Edge>, id: string) {
    exists i ::
      && 0 <= i < |edges| && !Joined(nodes, edges[i]) && (forall j :: 0 <= j < i ==> Joined(nodes, edges[j]))
      && id == (if edges[i].source !in nodes then edges[i].source else edges[i].target)
  }

  /** The index built edge by edge, up to the first edge with a missing end. */
  method Index(nodes: map<string, Node>, edges: seq<Edge>) returns (r: Result<map<string, seq<nat>>, GraphError>)
    ensures r.Ok? ==> (forall e :: e in edges ==> Joined(nodes, e)) && Indexed(r.value, edges, |edges|)
    ensures r.Err? ==> r.error.DanglingEdge? && FirstDangling(nodes, edges, r.error.id)
  {
    hide Indexed;
    hide Positions;
    hide Listed;
    var adjacency: map<string, seq<nat>> := map[];
    NothingIndexed(edges);
    for idx := 0 to |edges|
      invariant Indexed(adjacency, edges, idx)
      invariant forall j :: 0 <= j < idx ==> Joined(nodes, edges[j])
    {
      var e := edges[idx];
      if e.source !in nodes {
        return Err(DanglingEdge(e.source));
      }
      if e.target !in nodes {
        return Err(DanglingEdge(e.target));
      }
      IndexStep(adjacency, edges, idx);
      adjacency := adjacency[e.source := Listed(adjacency, e.source) + [idx]];
    }
    return Ok(adjacency);
  }

  lemma {:induction false} NothingIndexed(edges: seq<Edge>)
    ensures Indexed(map[], edges, 0)
  {
  }

  /** `parse`, of the deserialised lists. */
  method Parse(rawNodes: seq<Node>, rawEdges: seq<Edge>) returns (r: Result<Graph, GraphError>)
    ensures r.Ok? ==> Sound(r.value) && IsTable(r.value.nodes, rawNodes) && r.value.edges == rawEdges
    ensures r.Err? ==> exists nodes :: IsTable(nodes, rawNodes) && Explains(r.error, nodes, rawEdges)
  {
    var nodes := Table(rawNodes);
    var start := FindKind(nodes, Start);
    if start.None? {
      return Err(NoStart);
    }
    var global := FindKind(nodes, Global);
    var adjacency := Index(nodes, rawEdges);
    if adjacency.Err? {
      return Err(adjacency.error);
    }
    return Ok(Graph(nodes, rawEdges, start.value, global, adjacency.value));
  }

  /** Why a graph is refused: no start node, or the first edge with a missing end. */
  ghost predicate Explains(error: GraphError, nodes: map<string, Node>, edges: seq<Edge>) {
    match error
    case NoStart => forall id :: id in nodes ==> nodes[id].kind != Start
    case DanglingEdge(id) =>
      && (exists s :: s in nodes && nodes[s].kind == Start)
      && FirstDangling(nodes, edges, id)
  }

  /** A list of nodes has one table, so the outcome of `Parse` is decided by its input. */
  lemma {:induction false} TableIsUnique(a: map<string, Node>, b: map<string, Node>, raw: seq<Node>)
    requires IsTable(a, raw) && IsTable(b, raw)
    ensures a == b
  {
    assert a.Keys == b.Keys by {
      forall id ensures id in a <==> id in b {
        if id in a { assert id in b; }
        if id in b { assert id in a; }
      }
    }
    forall id | id in a ensures a[id] == b[id] {
      var i :| LastWith(raw, id, i) && a[id] == raw[i];
      var j :| LastWith(raw, id, j) && b[id] == raw[j];
    }
  }

  // ---------------------------------------------------------------- cardinality

  datatype Bounds = Bounds(minIn: Option<nat>, maxIn: Option<nat>, minOut: Option<nat>, maxOut: Option<nat>)

  function EdgeBounds(kind: Kind): Bounds {
    match kind
    case Start | Trigger => Bounds(None, Some(0), None, None)
    case Agent => Bounds(Some(1), None, None, None)
    case End => Bounds(Some(1), None, Some(0), Some(0))
    case Global | Webhook | Qa | Tuner => Bounds(Some(0), Some(0), Some(0), Some(0))
    case Other => Bounds(None, None, None, None)
  }

  datatype Rule = TooFewIn | TooManyIn | TooFewOut | TooManyOut

  datatype Violation = Violation(id: string, rule: Rule)

  /** The messages one node gets, in the order they are pushed. */
  function Broken(b: Bounds, i: nat, o: nat): seq<Rule> {
    (if b.minIn.Some? && i < b.minIn.value then [TooFewIn] else [])
    + (if b.maxIn.Some? && i > b.maxIn.value then [TooManyIn] else [])
    + (if b.minOut.Some? && o < b.minOut.value then [TooFewOut] else [])
    + (if b.maxOut.Some? && o > b.maxOut.value then [TooManyOut] else [])
  }

  /** The catalog rules in words: entries and isolated nodes take nothing in, agents and ends take
      something in, ends and isolated nodes give nothing out. */
  predicate Within(kind: Kind, i: nat, o: nat) {
    match kind
    case Start | Trigger => i == 0
    case Agent => i >= 1
    case End => i >= 1 && o == 0
    case Global | Webhook | Qa | Tuner => i == 0 && o == 0
    case Other => true
  }

  lemma {:induction false} NothingBrokenIffWithin(kind: Kind, i: nat, o: nat)
    ensures Broken(EdgeBounds(kind), i, o) == [] <==> Within(kind, i, o)
  {
    match kind {
      case Start | Trigger =>
      case Agent =>
      case End =>
      case Global | Webhook | Qa | Tuner =>
      case Other =>
    }
  }

  /** Each rule in words. No kind asks for an edge out. */
  ghost predicate Breaks(kind: Kind, i: nat, o: nat, rule: Rule) {
    match rule
    case TooFewIn => (kind == Agent || kind == Kind.End) && i == 0
    case TooManyIn => kind != Agent && kind != Kind.End && kind != Other && i > 0
    case TooFewOut => false
    case TooManyOut => kind != Agent && kind != Start && kind != Trigger && kind != Other && o > 0
  }

  /** The rules named are those broken, each once, incoming edges before outgoing ones. */
  lemma {:induction false} BrokenSays(kind: Kind, i: nat, o: nat)
    ensures var rules := Broken(EdgeBounds(kind), i, o);
            && (forall rule :: rule in rules <==> Breaks(kind, i, o, rule))
            && (forall j, k :: 0 <= j < k < |rules| ==> rules[j] != TooManyOut && rules[k] == TooManyOut)
  {
    match kind {
      case Start | Trigger =>
      case Agent =>
      case End =>
      case Global | Webhook | Qa | Tuner =>
      case Other =>
    }
  }

  ghost predicate Wellwired(g: Graph) {
    forall id :: id in g.nodes ==> Within(g.nodes[id].kind, |Into(g.edges, id)|, |From(g.edges, id)|)
  }

  /** The rules reported for one node. */
  function Of(errors: seq<Violation>, id: string): seq<Rule> {
    if errors == [] then []
    else Of(errors[..|errors| - 1], id) + (if errors[|errors| - 1].id == id then [errors[|errors| - 1].rule] else [])
  }

  /** They are told apart as often as they are reported. */
  lemma {:induction false} OfCounts(errors: seq<Violation>, v: Violation)
    ensures multiset(errors)[v] == multiset(Of(errors, v.id))[v.rule]
  {
    if errors != [] {
      OfCounts(errors[..|errors| - 1], v);
      assert errors == errors[..|errors| - 1] + [errors[|errors| - 1]];
    }
  }

  function Reports(id: string, rules: seq<Rule>): seq<Violation> {
    seq(|rules|, i requires 0 <= i < |rules| => Violation(id, rules[i]))
  }

  lemma {:induction false} OfOne(errors: seq<Violation>, v: Violation, other: string)
    ensures Of(errors + [v], other) == Of(errors, other) + (if v.id == other then [v.rule] else [])
  {
    assert (errors + [v])[..|errors|] == errors;
  }

  lemma {:induction false} OfMore(errors: seq<Violation>, id: string, rules: seq<Rule>, other: string)
    ensures Of(errors + Reports(id, rules), other) == Of(errors, other) + (if id == other then rules else [])
    decreases |rules|
  {
    hide Of;
    if rules == [] {
      assert errors + [] == errors;
    } else {
      var front, last := rules[..|rules| - 1], rules[|rules| - 1];
      OfMore(errors, id, front, other);
      OfOne(errors + Reports(id, front), Violation(id, last), other);
      assert errors + Reports(id, rules) == errors + Reports(id, front) + [Violation(id, last)];
      assert front + [last] == rules;
    }
  }

  /** The counters agree with plain scans of `edges`. */
  ghost predicate Counted(inDeg: map<string, nat>, outDeg: map<string, nat>, ids: set<string>, edges: seq<Edge>) {
    && inDeg.Keys == ids && outDeg.Keys == ids
    && forall id :: id in ids ==> inDeg[id] == |Into(edges, id)| && outDeg[id] == |From(edges, id)|
  }

  lemma {:induction false} CountStep(inDeg: map<string, nat>, outDeg: map<string, nat>, ids: set<string>,
                                     edges: seq<Edge>, e: Edge)
    requires Counted(inDeg, outDeg, ids, edges) && e.source in ids && e.target in ids
    ensures Counted(inDeg[e.target := inDeg[e.target] + 1], outDeg[e.source := outDeg[e.source] + 1], ids, edges + [e])
  {
    var more := edges + [e];
    assert more[..|more| - 1] == edges;
    forall id | id in ids
      ensures |Into(more, id)| == |Into(edges, id)| + (if e.target == id then 1 else 0)
      ensures |From(more, id)| == |From(edges, id)| + (if e.source == id then 1 else 0)
    {
    }
    assert inDeg[e.target := inDeg[e.target] + 1].Keys == ids;
    assert outDeg[e.source := outDeg[e.source] + 1].Keys == ids;
  }

  lemma {:induction false} NothingCounted(ids: set<string>)
    ensures Counted(map id | id in ids :: 0, map id | id in ids :: 0, ids, [])
  {
  }

  /** The two degree counters. */
  method Degrees(ids: set<string>, edges: seq<Edge>) returns (inDeg: map<string, nat>, outDeg: map<string, nat>)
    requires forall e :: e in edges ==> e.source in ids && e.target in ids
    ensures Counted(inDeg, outDeg, ids, edges)
  {
    hide Into;
    hide From;
    inDeg := map id | id in ids :: 0;
    outDeg := map id | id in ids :: 0;
    NothingCounted(ids);
    for k := 0 to |edges|
      invariant Counted(inDeg, outDeg, ids, edges[..k])
    {
      var e := edges[k];
      CountStep(inDeg, outDeg, ids, edges[..k], e);
      assert edges[..k + 1] == edges[..k] + [e];
      outDeg := outDeg[e.source := outDeg[e.source] + 1];
      inDeg := inDeg[e.target := inDeg[e.target] + 1];
    }
    assert edges[..|edges|] == edges;
  }

  /** What a node must be reported for. */
  function Due(g: Graph, id: string): seq<Rule> {
    if id in g.nodes then Broken(EdgeBounds(g.nodes[id].kind), |Into(g.edges, id)|, |From(g.edges, id)|) else []
  }

  /** Exactly the nodes not in `left` have been reported. */
  ghost predicate Reported(g: Graph, errors: seq<Violation>, left: set<string>) {
    forall id :: Of(errors, id) == if id in left then [] else Due(g, id)
  }

  lemma {:induction false} ReportStep(g: Graph, errors: seq<Violation>, left: set<string>, id: string)
    requires Reported(g, errors, left) && id in left
    ensures Reported(g, errors + Reports(id, Due(g, id)), left - {id})
  {
    hide Due;
    var more := errors + Reports(id, Due(g, id));
    forall other ensures Of(more, other) == if other in left - {id} then [] else Due(g, other) {
      OfMore(errors, id, Due(g, id), other);
    }
  }

  /** Nothing is reported exactly when every node keeps its bounds. */
  lemma {:induction false} ReportedNothing(g: Graph, errors: seq<Violation>)
    requires Reported(g, errors, {})
    ensures errors == [] <==> Wellwired(g)
  {
    forall id | id in g.nodes
      ensures Of(errors, id) == [] <==> Within(g.nodes[id].kind, |Into(g.edges, id)|, |From(g.edges, id)|)
    {
      NothingBrokenIffWithin(g.nodes[id].kind, |Into(g.edges, id)|, |From(g.edges, id)|);
    }
    if errors != [] {
      var id := errors[|errors| - 1].id;
      assert Of(errors, id) != [];
    }
  }

  /** What is reported, rule by rule. */
  lemma {:induction false} ReportedExactly(g: Graph, errors: seq<Violation>)
    requires Reported(g, errors, {})
    ensures forall v :: multiset(errors)[v] == if IsDue(g, v) then 1 else 0
  {
    forall v ensures multiset(errors)[v] == if IsDue(g, v) then 1 else 0 {
      OfCounts(errors, v);
      if v.id in g.nodes {
        var kind, i, o := g.nodes[v.id].kind, |Into(g.edges, v.id)|, |From(g.edges, v.id)|;
        BrokenSays(kind, i, o);
        OnceEach(Broken(EdgeBounds(kind), i, o), v.rule);
      }
    }
  }

  lemma {:induction false} OnceEach(rules: seq<Rule>, rule: Rule)
    requires forall j, k :: 0 <= j < k < |rules| ==> rules[j] != rules[k]
    ensures multiset(rules)[rule] == if rule in rules then 1 else 0
  {
    if rules != [] {
      OnceEach(rules[1..], rule);
      assert rules == [rules[0]] + rules[1..];
    }
  }

  /** A node of the graph breaks this rule. */
  ghost predicate IsDue(g: Graph, v: Violation) {
    v.id in g.nodes && Breaks(g.nodes[v.id].kind, |Into(g.edges, v.id)|, |From(g.edges, v.id)|, v.rule)
  }

  /** `cardinality_errors`: every broken rule once, in the order of the rules for each node. */
  method CardinalityErrors(g: Graph) returns (errors: seq<Violation>)
    requires Sound(g)
    ensures forall id :: Of(errors, id) == Due(g, id)
    ensures forall v :: multiset(errors)[v] == if IsDue(g, v) then 1 else 0
    ensures errors == [] <==> Wellwired(g)
  {
    hide Broken;
    hide Into;
    hide From;
    var inDeg, outDeg := Degrees(g.nodes.Keys, g.edges);
    errors := [];
    var left := g.nodes.Keys;
    while left != {}
      invariant left <= g.nodes.Keys && Reported(g, errors, left)
      decreases |left|
    {
      var id :| id in left;
      var rules := Broken(EdgeBounds(g.nodes[id].kind), inDeg[id], outDeg[id]);
      ReportStep(g, errors, left, id);
      errors := errors + Reports(id, rules);
      left := left - {id};
    }
    ReportedNothing(g, errors);
    ReportedExactly(g, errors);
  }
}
