/**
 The run-time walk over a workflow graph (`Engine` of flowcat-agent/src/engine.rs).
 */
module Engines {
  import opened Text
  import opened Graphs
  import Template

  datatype Action = Stay | Transition(to: string) | End

  /** What can move the engine: a transition asked for by name, or a seat taken by id. */
  datatype Event = Ask(name: string) | Seat(id: string)

  datatype EngineError = UnknownNode(id: string)

  // ---------------------------------------------------------------- transition names

  function Digits(n: nat): (s: string)
    ensures s != "" && forall i :: 0 <= i < |s| ==> IsDigit(s[i])
  {
    var last := ['0' + (n % 10) as char];
    if n < 10 then last else Digits(n / 10) + last
  }

  lemma {:induction false} DigitsReadBack(n: nat)
    ensures Template.Decimal(Digits(n)) == n
  {
    if n >= 10 {
      DigitsReadBack(n / 10);
      assert Digits(n)[..|Digits(n)| - 1] == Digits(n / 10);
    } else {
      assert Digits(n)[..0] == "";
    }
  }

  /** No leading zero, but for zero itself. */
  lemma {:induction false} DigitsStartPositive(n: nat)
    requires n > 0
    ensures Digits(n)[0] != '0'
  {
    if n >= 10 { DigitsStartPositive(n / 10); }
  }

  /** An index written out is read as that index. */
  lemma {:induction false} IndexReadBack(n: nat)
    ensures Template.ParseIndex(Digits(n)) == Some(n)
  {
    DigitsReadBack(n);
    assert Digits(n)[0] != '+';
  }

  /** The name of a node's `i`th outgoing edge. */
  function TransitionName(e: Edge, i: nat): string {
    if e.slug.Some? then e.slug.value else "transition_" + Digits(i)
  }

  /** An edge is named by its label, else by its number in decimal behind a fixed word. */
  lemma {:induction false} TransitionNameIs(e: Edge, i: nat)
    ensures var name := TransitionName(e, i);
            match e.slug
            case Some(slug) => name == slug
            case None => "transition_" <= name && Template.ParseIndex(name[|"transition_"|..]) == Some(i)
                         && (i > 0 ==> name[|"transition_"|] != '0')
  {
    IndexReadBack(i);
    if i > 0 { DigitsStartPositive(i); }
    if e.slug.None? { assert TransitionName(e, i)[|"transition_"|..] == Digits(i); }
  }

  /** `k` is the first edge of that name. */
  ghost predicate IsFirstNamed(edges: seq<Edge>, name: string, k: nat) {
    k < |edges| && TransitionName(edges[k], k) == name && forall j: nat :: j < k ==> TransitionName(edges[j], j) != name
  }

  function FirstNamed(edges: seq<Edge>, name: string, i: nat): (k: Option<nat>)
    requires i <= |edges|
    ensures k.Some? ==> i <= k.value < |edges|
    decreases |edges| - i
  {
    if i == |edges| then None
    else if TransitionName(edges[i], i) == name then Some(i)
    else FirstNamed(edges, name, i + 1)
  }

  lemma {:induction false} FirstNamedIs(edges: seq<Edge>, name: string, i: nat, k: nat)
    requires i <= |edges|
    requires forall j: nat :: j < i ==> TransitionName(edges[j], j) != name
    ensures FirstNamed(edges, name, i) == Some(k) <==> IsFirstNamed(edges, name, k)
    decreases |edges| - i
  {
    if i < |edges| && TransitionName(edges[i], i) != name {
      FirstNamedIs(edges, name, i + 1, k);
    }
  }

  /** Unlabelled edges of one node have different names. */
  lemma {:induction false} UnlabelledNamesDiffer(d: Edge, i: nat, e: Edge, j: nat)
    requires d.slug.None? && e.slug.None? && i != j
    ensures TransitionName(d, i) != TransitionName(e, j)
  {
    DigitsReadBack(i);
    DigitsReadBack(j);
    assert TransitionName(d, i)[|"transition_"|..] == Digits(i);
    assert TransitionName(e, j)[|"transition_"|..] == Digits(j);
  }

  /** An edge can be asked for exactly when no earlier edge of its node has its name; for an
      unlabelled edge only an earlier label can have it. */
  lemma {:induction false} WhoCanBeTaken(edges: seq<Edge>, k: nat)
    requires k < |edges|
    ensures (exists name :: FirstNamed(edges, name, 0) == Some(k))
            <==> forall j: nat :: j < k ==> TransitionName(edges[j], j) != TransitionName(edges[k], k)
    ensures edges[k].slug.None? ==>
              ((exists name :: FirstNamed(edges, name, 0) == Some(k))
               <==> forall j: nat :: j < k && edges[j].slug.Some? ==>
                      edges[j].slug.value != TransitionName(edges[k], k))
  {
    var mine := TransitionName(edges[k], k);
    FirstNamedIs(edges, mine, 0, k);
    if name :| FirstNamed(edges, name, 0) == Some(k) {
      FirstNamedIs(edges, name, 0, k);
    }
    if edges[k].slug.None? {
      forall j: nat | j < k && edges[j].slug.None? ensures TransitionName(edges[j], j) != mine {
        UnlabelledNamesDiffer(edges[j], j, edges[k], k);
      }
    }
  }

  // ---------------------------------------------------------------- one step

  predicate IsTerminal(g: Graph, id: string) {
    id in g.nodes && g.nodes[id].kind == Kind.End
  }

  function Next(g: Graph, at: string, name: string): (string, Action) {
    var edges := From(g.edges, at);
    match FirstNamed(edges, name, 0)
    case None => (at, Stay)
    case Some(k) =>
      var to := edges[k].target;
      (to, if IsTerminal(g, to) then Action.End else Transition(to))
  }

  /** The edge followed is the first one of the name asked for; the engine stays exactly when there is none. */
  lemma {:induction false} NextIs(g: Graph, at: string, name: string)
    ensures var edges := From(g.edges, at);
            var (to, action) := Next(g, at, name);
            && (forall k: nat :: IsFirstNamed(edges, name, k) ==>
                  && to == edges[k].target
                  && action == if to in g.nodes && g.nodes[to].kind == Kind.End then Action.End else Transition(to))
            && (action.Stay? ==> to == at)
    ensures Next(g, at, name).1.Stay?
            <==> forall k: nat :: k < |From(g.edges, at)| ==> TransitionName(From(g.edges, at)[k], k) != name
  {
    hide FirstNamed, TransitionName, IsFirstNamed;
    var edges := From(g.edges, at);
    forall k: nat | IsFirstNamed(edges, name, k) ensures FirstNamed(edges, name, 0) == Some(k) {
      FirstNamedIs(edges, name, 0, k);
    }
    NoneNamedIff(edges, name, 0);
  }

  lemma {:induction false} NoneNamedIff(edges: seq<Edge>, name: string, i: nat)
    requires i <= |edges|
    ensures FirstNamed(edges, name, i).None?
            <==> forall k: nat :: i <= k < |edges| ==> TransitionName(edges[k], k) != name
    decreases |edges| - i
  {
    hide TransitionName;
    if i < |edges| { NoneNamedIff(edges, name, i + 1); }
  }

  ghost predicate Linked(g: Graph, a: string, b: string) {
    exists e :: e in g.edges && e.source == a && e.target == b
  }

  /** The kinds a walk may enter in a graph without cardinality errors. */
  predicate Enterable(kind: Kind) {
    kind == Agent || kind == Kind.End || kind == Other
  }

  lemma {:induction false} NextFollowsAnEdge(g: Graph, at: string, name: string)
    requires Sound(g) && at in g.nodes
    ensures var (to, action) := Next(g, at, name);
            && to in g.nodes
            && (action.Stay? ==> to == at)
            && (!action.Stay? ==> Linked(g, at, to) && (action.End? <==> g.nodes[to].kind == Kind.End))
            && (!action.Stay? && Wellwired(g) ==> Enterable(g.nodes[to].kind))
  {
    var edges := From(g.edges, at);
    var k := FirstNamed(edges, name, 0);
    if k.Some? {
      var e := edges[k.value];
      FromIsExact(g.edges, at, e);
      IntoIsExact(g.edges, e.target, e);
      assert |Into(g.edges, e.target)| > 0;
    }
  }

  /** A node answers `Stay` to every name exactly when no edge leaves it. */
  lemma {:induction false} StaysForeverIff(g: Graph, at: string)
    ensures (forall name :: Next(g, at, name).1.Stay?) <==> From(g.edges, at) == []
  {
    var edges := From(g.edges, at);
    if edges != [] {
      var name := TransitionName(edges[0], 0);
      assert Next(g, at, name).1 != Stay;
    }
  }

  // ---------------------------------------------------------------- where a run begins

  predicate HasPrompt(n: Node) {
    n.prompt.Some? && Trim(n.prompt.value) != ""
  }

  /** A start node without a prompt is skipped along its first edge. */
  function Opening(g: Graph): string
    requires g.startId in g.nodes
  {
    var edges := From(g.edges, g.startId);
    if HasPrompt(g.nodes[g.startId]) || edges == [] then g.startId else edges[0].target
  }

  /** A start node is kept exactly for a prompt that is not all whitespace, or when no edge leaves it. */
  lemma {:induction false} OpeningIs(g: Graph)
    requires g.startId in g.nodes
    ensures var edges, prompt := From(g.edges, g.startId), g.nodes[g.startId].prompt;
            Opening(g) == if edges == [] || (prompt.Some? && exists k :: 0 <= k < |prompt.value|
                                                                         && !IsWhitespace(prompt.value[k]))
                          then g.startId else edges[0].target
  {
    if g.nodes[g.startId].prompt.Some? {
      TrimmedAwayIff(g.nodes[g.startId].prompt.value);
    }
    hide IsWhitespace, Trim;
  }

  lemma {:induction false} OpeningIsInGraph(g: Graph)
    requires Sound(g)
    ensures Opening(g) in g.nodes
    ensures Opening(g) != g.startId ==> Linked(g, g.startId, Opening(g))
    ensures Wellwired(g) ==> Opening(g) == g.startId || Enterable(g.nodes[Opening(g)].kind)
  {
    var edges := From(g.edges, g.startId);
    if Opening(g) != g.startId {
      var e := edges[0];
      FromIsExact(g.edges, g.startId, e);
      IntoIsExact(g.edges, e.target, e);
      assert |Into(g.edges, e.target)| > 0;
    }
  }

  // ---------------------------------------------------------------- runs

  function After(g: Graph, at: string, event: Event): string {
    match event
    case Ask(name) => Next(g, at, name).0
    case Seat(id) => if id in g.nodes then id else at
  }

  /** The active node at the outset and after every event. */
  function Places(g: Graph, at: string, events: seq<Event>): (places: seq<string>)
    ensures |places| == |events| + 1
  {
    if events == [] then [at]
    else
      var before := Places(g, at, events[..|events| - 1]);
      before + [After(g, before[|before| - 1], events[|events| - 1])]
  }

  function Last(places: seq<string>): string
    requires places != []
  {
    places[|places| - 1]
  }

  lemma {:induction false} PlaceByPlace(g: Graph, at: string, events: seq<Event>)
    requires Sound(g) && at in g.nodes
    ensures var p := Places(g, at, events);
            && p[0] == at
            && (forall k :: 0 <= k < |p| ==> p[k] in g.nodes)
            && (forall k :: 0 <= k < |events| ==> p[k + 1] == After(g, p[k], events[k]))
  {
    if events != [] {
      var front := events[..|events| - 1];
      PlaceByPlace(g, at, front);
      var p := Places(g, at, events);
      forall k | 0 <= k < |events| ensures p[k + 1] == After(g, p[k], events[k]) {
        if k < |front| { assert front[k] == events[k]; }
      }
      if events[|events| - 1].Ask? {
        NextFollowsAnEdge(g, Last(Places(g, at, front)), events[|events| - 1].name);
      }
    }
  }

  ghost predicate OnlyAsks(events: seq<Event>) {
    forall k :: 0 <= k < |events| ==> events[k].Ask?
  }

  /** Every place is reached along an edge or kept. */
  ghost predicate IsWalk(g: Graph, p: seq<string>) {
    forall k :: 0 < k < |p| ==> p[k] == p[k - 1] || Linked(g, p[k - 1], p[k])
  }

  /** Only agents, ends and nodes of unknown kind, but for a stay at the start node before the first move. */
  ghost predicate StaysInside(g: Graph, p: seq<string>) {
    forall k :: 0 <= k < |p| ==> p[k] in g.nodes && (Enterable(g.nodes[p[k]].kind) || Unmoved(g, p, k))
  }

  /** The start node is all there has been up to `k`. */
  ghost predicate Unmoved(g: Graph, p: seq<string>, k: int)
    requires k < |p|
  {
    forall j :: 0 <= j <= k ==> p[j] == g.startId
  }

  /** Whatever follows an end node is that node. */
  ghost predicate EndsAbsorb(g: Graph, p: seq<string>) {
    forall j, k :: 0 <= j <= k < |p| && IsTerminal(g, p[j]) ==> p[k] == p[j]
  }

  /**
   On a graph without cardinality errors every run is a walk along its edges which never enters, or
   comes back to, an entry or isolated node, and which never leaves an end node.
   */
  lemma {:induction false} RunIsAWalk(g: Graph, events: seq<Event>)
    requires Sound(g) && Wellwired(g) && OnlyAsks(events)
    ensures var p := Places(g, Opening(g), events); IsWalk(g, p) && StaysInside(g, p) && EndsAbsorb(g, p)
    decreases |events|
  {
    OpeningIsInGraph(g);
    if events != [] {
      var front, last := events[..|events| - 1], events[|events| - 1];
      var p := Places(g, Opening(g), front);
      RunIsAWalk(g, front);
      WalkStep(g, p, last.name);
    }
  }

  lemma {:induction false} WalkStep(g: Graph, p: seq<string>, name: string)
    requires Sound(g) && Wellwired(g) && p != []
    requires IsWalk(g, p) && StaysInside(g, p) && EndsAbsorb(g, p)
    ensures var q := p + [Next(g, Last(p), name).0]; IsWalk(g, q) && StaysInside(g, q) && EndsAbsorb(g, q)
  {
    var at := Last(p);
    var q := p + [Next(g, at, name).0];
    NextFollowsAnEdge(g, at, name);
    forall k | 0 < k < |q| ensures q[k] == q[k - 1] || Linked(g, q[k - 1], q[k]) {
      if k < |p| { assert p[k] == p[k - 1] || Linked(g, p[k - 1], p[k]); }
    }
    forall k | 0 <= k < |q| ensures q[k] in g.nodes && (Enterable(g.nodes[q[k]].kind) || Unmoved(g, q, k)) {
      var n := if k < |p| then k else |p| - 1;
      assert p[n] in g.nodes && (Enterable(g.nodes[p[n]].kind) || Unmoved(g, p, n));
    }
    forall j, k | 0 <= j <= k < |q| && IsTerminal(g, q[j]) ensures q[k] == q[j] {
      if k == |p| && j < |p| {
        assert p[|p| - 1] == p[j];
        EndStays(g, at, name);
      } else if k < |p| {
        assert p[k] == p[j];
      }
    }
  }

  lemma {:induction false} EndStays(g: Graph, at: string, name: string)
    requires Wellwired(g) && IsTerminal(g, at)
    ensures Next(g, at, name) == (at, Stay)
  {
    assert Within(g.nodes[at].kind, |Into(g.edges, at)|, |From(g.edges, at)|);
    assert From(g.edges, at) == [];
  }

  /** A run goes on from a persisted node as the run that persisted it would have gone on. */
  lemma {:induction false} ResumeContinues(g: Graph, at: string, before: seq<Event>, other: string, rest: seq<Event>)
    requires Sound(g) && at in g.nodes && other in g.nodes
    ensures Last(Places(g, at, before + rest)) == Last(Places(g, other, [Seat(Last(Places(g, at, before)))] + rest))
    decreases |rest|
  {
    var seat := [Seat(Last(Places(g, at, before)))];
    PlaceByPlace(g, at, before);
    if rest == [] {
      assert before + rest == before && seat + rest == seat;
      assert seat[..0] == [];
    } else {
      var front, last := rest[..|rest| - 1], rest[|rest| - 1];
      ResumeContinues(g, at, before, other, front);
      assert (before + rest)[..|before + rest| - 1] == before + front;
      assert (seat + rest)[..|seat + rest| - 1] == seat + front;
    }
  }

  // ---------------------------------------------------------------- the visited list

  /** The display name, or the id of a node that has none. */
  function NodeName(g: Graph, id: string): string {
    if id in g.nodes && g.nodes[id].name.Some? then g.nodes[id].name.value else id
  }

  function Names(g: Graph, places: seq<string>): seq<string> {
    seq(|places|, i requires 0 <= i < |places| => NodeName(g, places[i]))
  }

  /** The names in the order of their first appearance. */
  function FirstVisits(names: seq<string>): seq<string> {
    if names == [] then []
    else
      var before := FirstVisits(names[..|names| - 1]);
      var last := names[|names| - 1];
      if last in before then before else before + [last]
  }

  ghost predicate Distinct(v: seq<string>) {
    forall i, j :: 0 <= i < j < |v| ==> v[i] != v[j]
  }

  /** Of two entries the earlier one appears in `names` before the later one does. */
  ghost predicate InOrder(v: seq<string>, names: seq<string>) {
    forall i, j :: 0 <= i < j < |v| ==> Precedes(v[i], v[j], names)
  }

  ghost predicate Precedes(a: string, b: string, names: seq<string>) {
    exists p :: 0 <= p < |names| && names[p] == a && b !in names[..p]
  }

  lemma {:induction false} PrecedesInMore(a: string, b: string, names: seq<string>, last: string)
    requires Precedes(a, b, names) || (a in names && b !in names)
    ensures Precedes(a, b, names + [last])
  {
    var p :| 0 <= p < |names| && names[p] == a && b !in names[..p];
    assert (names + [last])[..p] == names[..p] && (names + [last])[p] == a;
  }

  /** No duplicates, nothing missing, and in the order of first appearance. */
  lemma {:induction false} FirstVisitsAreExact(names: seq<string>)
    ensures var v := FirstVisits(names); Distinct(v) && (forall n :: n in v <==> n in names) && InOrder(v, names)
  {
    if names != [] {
      var front, last := names[..|names| - 1], names[|names| - 1];
      FirstVisitsAreExact(front);
      assert names == front + [last];
      var v, before := FirstVisits(names), FirstVisits(front);
      forall i, j | 0 <= i < j < |v| ensures v[i] != v[j] && Precedes(v[i], v[j], names) {
        assert v[i] == before[i] && v[i] in before;
        if j < |before| {
          assert v[j] == before[j] && Precedes(before[i], before[j], front);
        }
        PrecedesInMore(v[i], v[j], front, last);
      }
    }
  }

  lemma {:induction false} FirstVisit(g: Graph, at: string)
    ensures Places(g, at, []) == [at]
    ensures FirstVisits(Names(g, [at])) == [NodeName(g, at)]
  {
    var one := Names(g, [at]);
    assert one[..0] == [] && one == [NodeName(g, at)];
  }

  // ---------------------------------------------------------------- the engine

  datatype Snapshot = Snapshot(current: string, vars: map<string, Template.Value>, runtimeOptions: Template.Value)

  class Engine {
    const graph: Graph
    const runtimeOptions: Template.Value
    var current: string
    var vars: map<string, Template.Value>
    var visited: seq<string>
    ghost var events: seq<Event>

    ghost function Trail(): (places: seq<string>)
      requires Sound(graph)
      reads this`events
      ensures |places| == |events| + 1
    {
      Places(graph, Opening(graph), events)
    }

    /** The active node and the visited list are functions of the events. */
    ghost predicate Valid()
      reads this`events, this`current, this`visited
    {
      && Sound(graph)
      && current in graph.nodes
      && current == Last(Trail())
      && visited == FirstVisits(Names(graph, Trail()))
    }

    constructor (graph: Graph, runtimeOptions: Template.Value, seedVars: map<string, Template.Value>)
      requires Sound(graph)
      ensures Valid() && this.graph == graph && events == [] && vars == seedVars
              && this.runtimeOptions == runtimeOptions
    {
      this.graph, this.runtimeOptions, vars := graph, runtimeOptions, seedVars;
      current, visited, events := graph.startId, [], [];
      new;
      hide FirstVisits, Names, Places, Opening;
      AdvanceThroughStart();
      OpeningIsInGraph(graph);
      FirstVisit(graph, current);
      RecordVisit();
    }

    method AdvanceThroughStart()
      requires Sound(graph) && current == graph.startId
      modifies this`current
      ensures current == Opening(graph)
      ensures var edges, prompt := From(graph.edges, graph.startId), graph.nodes[graph.startId].prompt;
              current == if edges == [] || (prompt.Some? && exists k :: 0 <= k < |prompt.value|
                                                                        && !IsWhitespace(prompt.value[k]))
                         then graph.startId else edges[0].target
    {
      OpeningIs(graph);
      if HasPrompt(graph.nodes[current]) {
        return;
      }
      var edges := Outgoing(graph, current);
      if edges != [] {
        current := edges[0].target;
      }
    }

    method RecordVisit()
      modifies this`visited
      ensures var shown := if current in graph.nodes then graph.nodes[current].name else None;
              var name := if shown.Some? then shown.value else current;
              visited == (if name in old(visited) then old(visited) else old(visited) + [name])
    {
      var name := NodeName(graph, current);
      if name !in visited {
        visited := visited + [name];
      }
    }

    /** What the list of visited names becomes when the engine moves to `to`. */
    lemma VisitsGrow(event: Event, to: string)
      requires Valid() && to == After(graph, current, event)
      ensures var name := NodeName(graph, to);
              FirstVisits(Names(graph, Places(graph, Opening(graph), events + [event])))
              == if name in visited then visited else visited + [name]
      ensures Last(Places(graph, Opening(graph), events + [event])) == to
      ensures to == current ==> NodeName(graph, to) in visited
    {
      var more := events + [event];
      assert more[..|more| - 1] == events;
      var names := Names(graph, Trail() + [to]);
      assert names[..|names| - 1] == Names(graph, Trail());
      FirstVisitsAreExact(Names(graph, Trail()));
      assert Names(graph, Trail())[|events|] == NodeName(graph, current);
    }

    /** `on_transition` */
    method OnTransition(name: string) returns (action: Action)
      requires Valid()
      modifies this`current, this`visited, this`events
      ensures Valid() && events == old(events) + [Ask(name)]
      ensures (current, action) == Next(graph, old(current), name)
      ensures var edges := From(graph.edges, old(current));
              && (forall k: nat :: IsFirstNamed(edges, name, k) ==>
                    && current == edges[k].target
                    && action == if graph.nodes[current].kind == Kind.End then Action.End else Transition(current))
              && (action.Stay? <==> forall k: nat :: k < |edges| ==> TransitionName(edges[k], k) != name)
              && (action.Stay? ==> current == old(current))
      ensures old(visited) <= visited && |visited| <= |old(visited)| + 1 && NodeName(graph, current) in visited
      ensures action.Stay? ==> visited == old(visited)
    {
      hide FirstVisits, Names, Places, Opening, From, Sound, FirstNamed, TransitionName, IsFirstNamed, Linked,
           Wellwired;
      NextIs(graph, current, name);
      var edges := Outgoing(graph, current);
      var k := FirstNamed(edges, name, 0);
      VisitsGrow(Ask(name), Next(graph, current, name).0);
      NextFollowsAnEdge(graph, current, name);
      events := events + [Ask(name)];
      if k.None? {
        return Stay;
      }
      current := edges[k.value].target;
      RecordVisit();
      return if IsTerminal(graph, current) then Action.End else Transition(current);
    }

    /** `set_current_node` */
    method SetCurrentNode(id: string) returns (r: Result<(), EngineError>)
      requires Valid()
      modifies this`current, this`visited, this`events
      ensures Valid()
      ensures r.Ok? <==> id in graph.nodes
      ensures r.Ok? ==> current == id && events == old(events) + [Seat(id)] && old(visited) <= visited
      ensures r.Err? ==> r.error == UnknownNode(id)
      ensures r.Err? ==> current == old(current) && visited == old(visited) && events == old(events)
    {
      hide FirstVisits;
      hide Sound;
      if id in graph.nodes {
        VisitsGrow(Seat(id), id);
        events := events + [Seat(id)];
        current := id;
        RecordVisit();
        return Ok(());
      } else {
        return Err(UnknownNode(id));
      }
    }

    /** `capture`: extracted variables win over earlier ones. */
    method Capture(extracted: map<string, Template.Value>)
      requires Valid()
      modifies this`vars
      ensures Valid()
      ensures vars.Keys == old(vars).Keys + extracted.Keys
      ensures forall k :: k in vars ==> vars[k] == if k in extracted then extracted[k] else old(vars)[k]
    {
      vars := vars + extracted;
    }

    function TakeSnapshot(): Snapshot
      reads this`current, this`vars
    {
      Snapshot(current, vars, runtimeOptions)
    }
  }

  /** A snapshot resumed in a new engine on the same graph gives the same active node and variables. */
  method Resume(g: Graph, snapshot: Snapshot) returns (r: Result<Engine, EngineError>)
    requires Sound(g)
    ensures r.Ok? <==> snapshot.current in g.nodes
    ensures r.Ok? ==> fresh(r.value) && r.value.Valid() && r.value.graph == g && r.value.TakeSnapshot() == snapshot
    ensures r.Ok? ==> r.value.events == [Seat(snapshot.current)]
  {
    var e := new Engine(g, snapshot.runtimeOptions, snapshot.vars);
    var seated := e.SetCurrentNode(snapshot.current);
    if seated.Err? {
      return Err(seated.error);
    }
    return Ok(e);
  }
}
