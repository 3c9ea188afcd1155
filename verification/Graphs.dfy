/** The evaluation graph of rules/cel.go: how its adjacency lists are built, which nodes a walk may not
    enter, and what each graph helper answers by definition. */
module Graphs {
  import opened Json
  import opened Walks

  /** A projected node: the members the graph helpers read. */
  datatype Node = Node(id: string, typ: string, layer: string, zone: string, attrs: Members)

  datatype Edge = Edge(from: string, to: string, kind: string)

  datatype Topology = Topology(
    nodes: seq<Node>,
    edges: seq<Edge>,
    nodeByID: map<string, Node>,
    nodesByType: map<string, seq<Node>>,
    outAdj: Adjacency,
    inAdj: Adjacency,
    dataAdj: Adjacency,
    dataRev: Adjacency)

  predicate UniqueNodes(nodes: seq<Node>) {
    forall i, j | 0 <= i < j < |nodes| :: nodes[i].id != nodes[j].id
  }

  // ---- arrows ------------------------------------------------------------------------------------

  function Flow(edges: seq<Edge>): (r: seq<Arrow>)
    ensures |r| == |edges|
  {
    seq(|edges|, i requires 0 <= i < |edges| => (edges[i].from, edges[i].to))
  }

  /** The direction data moves along an edge: against reads and subscribes, both ways along calls,
      nowhere along authenticates. */
  function DataOf(e: Edge): seq<Arrow> {
    if e.kind == "reads" || e.kind == "subscribes" then [(e.to, e.from)]
    else if e.kind == "calls" then [(e.from, e.to), (e.to, e.from)]
    else if e.kind == "authenticates" then []
    else [(e.from, e.to)]
  }

  function DataArrows(edges: seq<Edge>): seq<Arrow> {
    if edges == [] then [] else DataArrows(edges[..|edges| - 1]) + DataOf(edges[|edges| - 1])
  }

  function OfType(nodes: seq<Node>, typ: string): seq<Node> {
    if nodes == [] then []
    else
      var rest := OfType(nodes[..|nodes| - 1], typ);
      if nodes[|nodes| - 1].typ == typ then rest + [nodes[|nodes| - 1]] else rest
  }

  function TypeAt(byType: map<string, seq<Node>>, typ: string): seq<Node> {
    if typ in byType then byType[typ] else []
  }

  ghost predicate Indexed(nodes: seq<Node>, byID: map<string, Node>, byType: map<string, seq<Node>>) {
    (forall n | n in nodes :: n.id in byID && byID[n.id] == n)
    && (forall id | id in byID :: byID[id] in nodes && byID[id].id == id)
    && forall typ :: TypeAt(byType, typ) == OfType(nodes, typ)
  }

  /** The topology is what buildGraph makes of its nodes and edges: both pairs of adjacency lists are
      the lists of one set of arrows and of its reverse. */
  ghost predicate Built(t: Topology) {
    UniqueNodes(t.nodes) && Indexed(t.nodes, t.nodeByID, t.nodesByType)
    && Lists(t.outAdj, Flow(t.edges)) && Lists(t.inAdj, Reverse(Flow(t.edges)))
    && Lists(t.dataAdj, DataArrows(t.edges)) && Lists(t.dataRev, Reverse(DataArrows(t.edges)))
  }

  lemma {:induction false} AddArrow(adj: Adjacency, arrows: seq<Arrow>, a: string, b: string)
    requires Lists(adj, arrows)
    ensures Lists(adj[a := At(adj, a) + [b]], arrows + [(a, b)])
  {
    var longer := arrows + [(a, b)];
    assert longer[..|longer| - 1] == arrows;
    forall x ensures At(adj[a := At(adj, a) + [b]], x) == Targets(longer, x) {
      assert At(adj, x) == Targets(arrows, x);
    }
  }

  lemma {:induction false} ReverseAppend(arrows: seq<Arrow>, a: string, b: string)
    ensures Reverse(arrows + [(a, b)]) == Reverse(arrows) + [(b, a)]
  {}

  function Link(adj: Adjacency, a: string, b: string): Adjacency {
    adj[a := At(adj, a) + [b]]
  }

  lemma {:induction false} AddBoth(fwd: Adjacency, bwd: Adjacency, arrows: seq<Arrow>, a: string, b: string)
    requires Lists(fwd, arrows) && Lists(bwd, Reverse(arrows))
    ensures Lists(Link(fwd, a, b), arrows + [(a, b)]) && Lists(Link(bwd, b, a), Reverse(arrows + [(a, b)]))
  {
    AddArrow(fwd, arrows, a, b);
    ReverseAppend(arrows, a, b);
    AddArrow(bwd, Reverse(arrows), b, a);
  }

  lemma {:induction false} IndexOneMore(nodes: seq<Node>, i: nat, byID: map<string, Node>, byType: map<string, seq<Node>>)
    requires UniqueNodes(nodes) && i < |nodes| && Indexed(nodes[..i], byID, byType)
    ensures var n := nodes[i];
            Indexed(nodes[..i + 1], byID[n.id := n], byType[n.typ := TypeAt(byType, n.typ) + [n]])
  {
    var n := nodes[i];
    assert nodes[..i + 1] == nodes[..i] + [n];
    var byType' := byType[n.typ := TypeAt(byType, n.typ) + [n]];
    forall typ ensures TypeAt(byType', typ) == OfType(nodes[..i + 1], typ) {
      assert nodes[..i + 1][..i] == nodes[..i];
      assert TypeAt(byType, typ) == OfType(nodes[..i], typ);
    }
    forall m | m in nodes[..i] ensures m.id != n.id {
      var j :| 0 <= j < i && nodes[j] == m;
    }
  }

  method IndexNodes(nodes: seq<Node>) returns (byID: map<string, Node>, byType: map<string, seq<Node>>)
    requires UniqueNodes(nodes)
    ensures Indexed(nodes, byID, byType)
  {
    byID, byType := map[], map[];
    for i := 0 to |nodes|
      invariant Indexed(nodes[..i], byID, byType)
    {
      var n := nodes[i];
      IndexOneMore(nodes, i, byID, byType);
      byID := byID[n.id := n];
      byType := byType[n.typ := TypeAt(byType, n.typ) + [n]];
    }
    assert nodes[..|nodes|] == nodes;
  }

  method LinkEdges(edges: seq<Edge>) returns (outAdj: Adjacency, inAdj: Adjacency, dataAdj: Adjacency, dataRev: Adjacency)
    ensures Lists(outAdj, Flow(edges)) && Lists(inAdj, Reverse(Flow(edges)))
    ensures Lists(dataAdj, DataArrows(edges)) && Lists(dataRev, Reverse(DataArrows(edges)))
  {
    outAdj, inAdj, dataAdj, dataRev := map[], map[], map[], map[];
    for i := 0 to |edges|
      invariant Lists(outAdj, Flow(edges[..i])) && Lists(inAdj, Reverse(Flow(edges[..i])))
      invariant Lists(dataAdj, DataArrows(edges[..i])) && Lists(dataRev, Reverse(DataArrows(edges[..i])))
    {
      var e := edges[i];
      assert Flow(edges[..i + 1]) == Flow(edges[..i]) + [(e.from, e.to)];
      AddBoth(outAdj, inAdj, Flow(edges[..i]), e.from, e.to);
      outAdj, inAdj := Link(outAdj, e.from, e.to), Link(inAdj, e.to, e.from);
      assert edges[..i + 1][..i] == edges[..i];
      dataAdj, dataRev := AddData(dataAdj, dataRev, e, DataArrows(edges[..i]));
    }
    assert edges[..|edges|] == edges;
  }

  method AddData(adj: Adjacency, rev: Adjacency, e: Edge, ghost arrows: seq<Arrow>) returns (adj': Adjacency, rev': Adjacency)
    requires Lists(adj, arrows) && Lists(rev, Reverse(arrows))
    ensures Lists(adj', arrows + DataOf(e)) && Lists(rev', Reverse(arrows + DataOf(e)))
  {
    adj', rev' := adj, rev;
    if e.kind == "reads" || e.kind == "subscribes" {
      AddBoth(adj, rev, arrows, e.to, e.from);
      adj', rev' := Link(adj, e.to, e.from), Link(rev, e.from, e.to);
    } else if e.kind == "calls" {
      AddBoth(adj, rev, arrows, e.from, e.to);
      adj', rev' := Link(adj, e.from, e.to), Link(rev, e.to, e.from);
      AddBoth(adj', rev', arrows + [(e.from, e.to)], e.to, e.from);
      adj', rev' := Link(adj', e.to, e.from), Link(rev', e.from, e.to);
      assert arrows + [(e.from, e.to)] + [(e.to, e.from)] == arrows + DataOf(e);
    } else if e.kind == "authenticates" {
      assert arrows + DataOf(e) == arrows;
    } else {
      AddBoth(adj, rev, arrows, e.from, e.to);
      adj', rev' := Link(adj, e.from, e.to), Link(rev, e.to, e.from);
    }
  }

  method Build(nodes: seq<Node>, edges: seq<Edge>) returns (t: Topology)
    requires UniqueNodes(nodes)
    ensures Built(t) && t.nodes == nodes && t.edges == edges
  {
    var byID, byType := IndexNodes(nodes);
    var outAdj, inAdj, dataAdj, dataRev := LinkEdges(edges);
    t := Topology(nodes, edges, byID, byType, outAdj, inAdj, dataAdj, dataRev);
  }

  // ---- what blocks a walk ------------------------------------------------------------------------

  datatype Block =
    | ByType(avoid: string)
    | ByAttr(attr: string)
    | ByKinds(types: seq<string>, kinds: seq<string>, attrTypes: seq<string>, attr: string)
    | ByFunctions(types: seq<string>, kinds: seq<string>, need: seq<string>)

  predicate IsSet(attrs: Members, attr: string) {
    attr in attrs && attrs[attr] == Bool(true)
  }

  /** declaredFunctions: the non-empty strings of the functions attribute. */
  function DeclaredFunctions(attrs: Members): set<string> {
    if "functions" in attrs && attrs["functions"].Arr? then
      set i | 0 <= i < |attrs["functions"].items| && attrs["functions"].items[i].Str? && attrs["functions"].items[i].s != ""
        :: attrs["functions"].items[i].s
    else {}
  }

  predicate Blocks(b: Block, n: Node) {
    match b
    case ByType(avoid) => n.typ == avoid
    case ByAttr(attr) => IsSet(n.attrs, attr)
    case ByKinds(types, kinds, attrTypes, attr) =>
      (attr != "" && n.typ in attrTypes && IsSet(n.attrs, attr))
      || (n.typ in types && (kinds == [] || StringAt(n.attrs, "kind") in kinds))
    case ByFunctions(types, kinds, need) =>
      n.typ in types
      && if DeclaredFunctions(n.attrs) != {} then forall f | f in need :: f in DeclaredFunctions(n.attrs)
         else kinds == [] || StringAt(n.attrs, "kind") in kinds
  }

  /** The nodes a walk around the block may enter. */
  function GateOf(nodes: seq<Node>, b: Block): Gate {
    Only(set n | n in nodes && !Blocks(b, n) :: n.id)
  }

  predicate IsNode(t: Topology, id: string) {
    exists i :: 0 <= i < |t.nodes| && t.nodes[i].id == id
  }

  // ---- what the helpers answer, by definition ----------------------------------------------------

  ghost predicate Reachable(t: Topology, from: string, to: string) {
    IsNode(t, from) && Reaches(Flow(t.edges), Anywhere, from, to)
  }

  /** Some directed walk passes through a node of the type, endpoints included. */
  ghost predicate PathThrough(t: Topology, from: string, to: string, via: string) {
    IsNode(t, from)
    && exists p, n :: Walk(Flow(t.edges), Anywhere, p) && p[0] == from && p[|p| - 1] == to
                      && n in t.nodes && n.typ == via && n.id in p
  }

  /** Some directed walk never enters a blocked node; the start is not checked. */
  ghost predicate PathAvoiding(t: Topology, from: string, to: string, b: Block) {
    IsNode(t, from) && Reaches(Flow(t.edges), GateOf(t.nodes, b), from, to)
  }

  /** The nodes, in model order, with a walk to the target around the block. */
  ghost function Upstream(t: Topology, target: string, b: Block): seq<Node> {
    if IsNode(t, target) then SourcesAmong(t, t.nodes, target, b) else []
  }

  ghost function SourcesAmong(t: Topology, nodes: seq<Node>, target: string, b: Block): seq<Node> {
    if nodes == [] then []
    else
      var rest := SourcesAmong(t, nodes[..|nodes| - 1], target, b);
      var last := nodes[|nodes| - 1];
      if Reaches(Flow(t.edges), GateOf(t.nodes, b), last.id, target) then rest + [last] else rest
  }

  ghost predicate DataFlows(t: Topology, from: string, to: string) {
    IsNode(t, from) && Reaches(DataArrows(t.edges), Anywhere, from, to)
  }

  /** n is a data source of the target in the layer ("" is any layer); a node is not its own source. */
  ghost predicate Feeds(t: Topology, n: Node, target: string, layer: string) {
    n.id != target && (layer == "" || n.layer == layer) && Reaches(DataArrows(t.edges), Anywhere, n.id, target)
  }

  ghost function SourceIds(t: Topology, nodes: seq<Node>, target: string, layer: string): seq<string> {
    if nodes == [] then []
    else
      var rest := SourceIds(t, nodes[..|nodes| - 1], target, layer);
      var last := nodes[|nodes| - 1];
      if Feeds(t, last, target, layer) then rest + [last.id] else rest
  }

  /** The distinct non-empty zones of the data sources, in model order. */
  ghost function SourceZones(t: Topology, nodes: seq<Node>, target: string, layer: string): seq<string> {
    if nodes == [] then []
    else
      var rest := SourceZones(t, nodes[..|nodes| - 1], target, layer);
      var last := nodes[|nodes| - 1];
      if Feeds(t, last, target, layer) && last.zone != "" && last.zone !in rest then rest + [last.zone] else rest
  }

  /** The type of an endpoint; a dangling one is projected with an empty type. */
  function TypeOf(t: Topology, id: string): string {
    if id in t.nodeByID then t.nodeByID[id].typ else ""
  }

  predicate WritesInto(t: Topology, from: string, typ: string) {
    exists e :: e in t.edges && (e.kind == "writes" || e.kind == "executes") && e.from == from && TypeOf(t, e.to) == typ
  }

  function Writers(t: Topology, nodes: seq<Node>, typ: string): seq<string> {
    if nodes == [] then []
    else
      var rest := Writers(t, nodes[..|nodes| - 1], typ);
      var last := nodes[|nodes| - 1];
      if WritesInto(t, last.id, typ) then rest + [last.id] else rest
  }

  // ---- duality -----------------------------------------------------------------------------------

  lemma {:induction false} SourcesAmongHas(t: Topology, nodes: seq<Node>, target: string, b: Block, c: Node)
    ensures c in SourcesAmong(t, nodes, target, b)
            <==> c in nodes && Reaches(Flow(t.edges), GateOf(t.nodes, b), c.id, target)
  {
    if nodes != [] {
      var rest, last := nodes[..|nodes| - 1], nodes[|nodes| - 1];
      assert nodes == rest + [last];
      SourcesAmongHas(t, rest, target, b, c);
    }
  }

  /** One reverse walk lists exactly the nodes whose own forward walk around the block reaches the
      target. */
  lemma {:induction false} UpstreamIsForward(t: Topology, target: string, b: Block, c: Node)
    requires c in t.nodes && IsNode(t, target)
    ensures c in Upstream(t, target, b) <==> PathAvoiding(t, c.id, target, b)
  {
    SourcesAmongHas(t, t.nodes, target, b, c);
    assert IsNode(t, c.id);
  }

  /** The positions, in the model, of the listed nodes. */
  ghost function Positions(t: Topology, nodes: seq<Node>, target: string, b: Block): seq<nat> {
    if nodes == [] then []
    else
      var rest := Positions(t, nodes[..|nodes| - 1], target, b);
      if Reaches(Flow(t.edges), GateOf(t.nodes, b), nodes[|nodes| - 1].id, target) then rest + [|nodes| - 1] else rest
  }

  /** The listed nodes come in model order. */
  lemma {:induction false} UpstreamInOrder(t: Topology, nodes: seq<Node>, target: string, b: Block)
    ensures |Positions(t, nodes, target, b)| == |SourcesAmong(t, nodes, target, b)|
    ensures forall i | 0 <= i < |Positions(t, nodes, target, b)| ::
              Positions(t, nodes, target, b)[i] < |nodes|
              && SourcesAmong(t, nodes, target, b)[i] == nodes[Positions(t, nodes, target, b)[i]]
    ensures forall i, j | 0 <= i < j < |Positions(t, nodes, target, b)| ::
              Positions(t, nodes, target, b)[i] < Positions(t, nodes, target, b)[j]
  {
    if nodes != [] {
      UpstreamInOrder(t, nodes[..|nodes| - 1], target, b);
    }
  }

  /** Data flows from a to b exactly when a is upstream of b in the reverse lists. */
  lemma DataDuality(t: Topology, a: string, b: string)
    requires IsNode(t, a)
    ensures DataFlows(t, a, b) <==> Reaches(Reverse(DataArrows(t.edges)), Anywhere, b, a)
  {
    ReverseReachesIff(DataArrows(t.edges), a, b);
  }
}
