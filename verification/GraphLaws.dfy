/** What the graph queries answer, read off the edges and nodes of the model (rules/cel.go). */
module GraphLaws {
  import opened Json
  import opened Walks
  import opened Graphs
  import opened GraphQueries

  // ---- steps along edges -------------------------------------------------------------------------

  /** An edge of the model leads from a to b. */
  predicate EdgeStep(t: Topology, a: string, b: string) {
    exists e :: e in t.edges && e.from == a && e.to == b
  }

  /** Data moves from a to b along one edge: to the reader and the subscriber, both ways along a call, along
      every other edge with it, and never along an authentication. */
  predicate DataStep(t: Topology, a: string, b: string) {
    exists e :: e in t.edges && MovesData(e, a, b)
  }

  predicate MovesData(e: Edge, a: string, b: string) {
    match e.kind
    case "reads" => e.to == a && e.from == b
    case "subscribes" => e.to == a && e.from == b
    case "calls" => (e.from == a && e.to == b) || (e.to == a && e.from == b)
    case "authenticates" => false
    case _ => e.from == a && e.to == b
  }

  /** A node sequence from a to b each of whose steps an edge justifies. */
  predicate EdgeTrail(t: Topology, p: seq<string>, a: string, b: string) {
    p != [] && p[0] == a && p[|p| - 1] == b && forall i | 0 < i < |p| :: EdgeStep(t, p[i - 1], p[i])
  }

  predicate DataTrail(t: Topology, p: seq<string>, a: string, b: string) {
    p != [] && p[0] == a && p[|p| - 1] == b && forall i | 0 < i < |p| :: DataStep(t, p[i - 1], p[i])
  }

  lemma FlowHas(t: Topology, a: string, b: string)
    ensures (a, b) in Flow(t.edges) <==> EdgeStep(t, a, b)
  {
    if (a, b) in Flow(t.edges) {
      var i :| 0 <= i < |t.edges| && Flow(t.edges)[i] == (a, b);
      assert t.edges[i] in t.edges;
    }
    if e :| e in t.edges && e.from == a && e.to == b {
      var i :| 0 <= i < |t.edges| && t.edges[i] == e;
      assert Flow(t.edges)[i] == (a, b);
    }
  }

  lemma {:induction false} DataHas(edges: seq<Edge>, a: string, b: string)
    ensures (a, b) in DataArrows(edges) <==> exists e :: e in edges && MovesData(e, a, b)
  {
    if edges != [] {
      var rest, last := edges[..|edges| - 1], edges[|edges| - 1];
      DataHas(rest, a, b);
      LastMoves(last, a, b);
      assert edges == rest + [last];
    }
  }

  lemma LastMoves(e: Edge, a: string, b: string)
    ensures (a, b) in DataOf(e) <==> MovesData(e, a, b)
  {}

  lemma WalkIsTrail(t: Topology, p: seq<string>)
    requires p != []
    ensures Walk(Flow(t.edges), Anywhere, p) <==> EdgeTrail(t, p, p[0], p[|p| - 1])
    ensures Walk(DataArrows(t.edges), Anywhere, p) <==> DataTrail(t, p, p[0], p[|p| - 1])
  {
    forall a, b ensures (a, b) in Flow(t.edges) <==> EdgeStep(t, a, b) {
      FlowHas(t, a, b);
    }
    forall a, b ensures (a, b) in DataArrows(t.edges) <==> DataStep(t, a, b) {
      DataHas(t.edges, a, b);
    }
  }

  /** A node reaches another exactly when a sequence of edges leads there. */
  lemma {:induction false} ReachFollowsEdges(t: Topology, a: string, b: string)
    requires exists n :: n in t.nodes && n.id == a
    ensures Uncached(t, QReachable(a, b)) == Yes(exists p :: EdgeTrail(t, p, a, b))
  {
    KnownNode(t, a);
    if p :| EdgeTrail(t, p, a, b) {
      WalkIsTrail(t, p);
    }
    if Reaches(Flow(t.edges), Anywhere, a, b) {
      var p :| Walk(Flow(t.edges), Anywhere, p) && p[0] == a && p[|p| - 1] == b;
      WalkIsTrail(t, p);
      assert EdgeTrail(t, p, a, b);
    }
  }

  /** The data of a node reaches another exactly when a sequence of edges moves it there, each in its own
      direction. */
  lemma {:induction false} DataFollowsEdges(t: Topology, a: string, b: string)
    requires exists n :: n in t.nodes && n.id == a
    ensures Uncached(t, QDataFlows(a, b)) == Yes(exists p :: DataTrail(t, p, a, b))
  {
    KnownNode(t, a);
    DataReaches(t, a, b);
  }

  lemma {:induction false} DataReaches(t: Topology, a: string, b: string)
    ensures Reaches(DataArrows(t.edges), Anywhere, a, b) <==> exists p :: DataTrail(t, p, a, b)
  {
    if p :| DataTrail(t, p, a, b) {
      WalkIsTrail(t, p);
    }
    if Reaches(DataArrows(t.edges), Anywhere, a, b) {
      var p :| Walk(DataArrows(t.edges), Anywhere, p) && p[0] == a && p[|p| - 1] == b;
      WalkIsTrail(t, p);
      assert DataTrail(t, p, a, b);
    }
  }

  lemma KnownNode(t: Topology, id: string)
    ensures IsNode(t, id) <==> exists n :: n in t.nodes && n.id == id
  {
    if IsNode(t, id) {
      var i :| 0 <= i < |t.nodes| && t.nodes[i].id == id;
      assert t.nodes[i] in t.nodes;
    }
  }

  /** A start that is no node reaches nothing and sends no data, itself included. */
  lemma UnknownStart(t: Topology, a: string, b: string, via: string, block: Block)
    requires forall n | n in t.nodes :: n.id != a
    ensures Uncached(t, QReachable(a, b)) == Uncached(t, QDataFlows(a, b)) == Yes(false)
    ensures Uncached(t, QPathThrough(a, b, via)) == Uncached(t, QPathAvoiding(a, b, block)) == Yes(false)
    ensures Uncached(t, QUpstream(a, block)) == Nodes([])
    ensures Uncached(t, QDataSources(a, "")) == Uncached(t, QDataZones(a, "")) == Texts([])
  {
    KnownNode(t, a);
  }

  /** What one edge does for data, by its kind. */
  lemma {:induction false} OneEdge(t: Topology, e: Edge)
    requires e in t.edges && IsNode(t, e.from) && IsNode(t, e.to)
    ensures e.kind in {"reads", "subscribes", "calls"} ==> DataFlows(t, e.to, e.from)
    ensures e.kind in {"calls", "writes", "publishes", "flows", "delegates", "executes"} ==> DataFlows(t, e.from, e.to)
  {
    if e.kind in {"reads", "subscribes", "calls"} {
      assert MovesData(e, e.to, e.from);
      DataHas(t.edges, e.to, e.from);
      assert Walk(DataArrows(t.edges), Anywhere, [e.to, e.from]);
    }
    if e.kind in {"calls", "writes", "publishes", "flows", "delegates", "executes"} {
      assert MovesData(e, e.from, e.to);
      DataHas(t.edges, e.from, e.to);
      assert Walk(DataArrows(t.edges), Anywhere, [e.from, e.to]);
    }
  }

  lemma TrailLeaves(t: Topology, p: seq<string>, a: string, b: string)
    requires DataTrail(t, p, a, b) && a != b
    ensures exists x :: DataStep(t, a, x)
  {
    assert DataStep(t, p[0], p[1]);
  }

  /** Data leaves a node only along an edge that moves it: with nothing but readers and subscribers of others,
      writers into it and authentications, it sends data to itself alone. */
  lemma {:induction false} NoDataLeaves(t: Topology, a: string, b: string)
    requires forall e | e in t.edges && e.from == a :: e.kind in {"reads", "subscribes", "authenticates"}
    requires forall e | e in t.edges && e.to == a :: e.kind !in {"reads", "subscribes", "calls"}
    requires IsNode(t, a)
    ensures DataFlows(t, a, b) <==> a == b
  {
    KnownNode(t, a);
    DataFollowsEdges(t, a, b);
    forall x ensures !DataStep(t, a, x) {}
    forall p | DataTrail(t, p, a, b) ensures a == b {
      if a != b {
        TrailLeaves(t, p, a, b);
      }
    }
    ReachesSelf(DataArrows(t.edges), Anywhere, a);
  }

  // ---- walks around a block ----------------------------------------------------------------------

  /** An edge leads from a to b and b is a node the block lets pass. */
  predicate FreeStep(t: Topology, block: Block, a: string, b: string) {
    EdgeStep(t, a, b) && exists n :: n in t.nodes && n.id == b && !Blocks(block, n)
  }

  predicate FreeTrail(t: Topology, block: Block, p: seq<string>, a: string, b: string) {
    p != [] && p[0] == a && p[|p| - 1] == b && forall i | 0 < i < |p| :: FreeStep(t, block, p[i - 1], p[i])
  }

  lemma GateLets(t: Topology, block: Block, a: string, b: string)
    ensures Hop(Flow(t.edges), GateOf(t.nodes, block), a, b) <==> FreeStep(t, block, a, b)
  {
    FlowHas(t, a, b);
  }

  lemma GatedWalk(t: Topology, block: Block, p: seq<string>)
    requires p != []
    ensures Walk(Flow(t.edges), GateOf(t.nodes, block), p) <==> FreeTrail(t, block, p, p[0], p[|p| - 1])
  {
    forall a, b ensures Hop(Flow(t.edges), GateOf(t.nodes, block), a, b) <==> FreeStep(t, block, a, b) {
      GateLets(t, block, a, b);
    }
  }

  /** A node reaches another around a block exactly when a sequence of edges leads there that enters no blocked
      node; where it starts does not matter. */
  lemma {:induction false} AvoidingFollowsEdges(t: Topology, a: string, b: string, block: Block)
    requires exists n :: n in t.nodes && n.id == a
    ensures Uncached(t, QPathAvoiding(a, b, block)) == Yes(exists p :: FreeTrail(t, block, p, a, b))
  {
    KnownNode(t, a);
    if p :| FreeTrail(t, block, p, a, b) {
      GatedWalk(t, block, p);
    }
    if Reaches(Flow(t.edges), GateOf(t.nodes, block), a, b) {
      var p :| Walk(Flow(t.edges), GateOf(t.nodes, block), p) && p[0] == a && p[|p| - 1] == b;
      GatedWalk(t, block, p);
      assert FreeTrail(t, block, p, a, b);
    }
  }

  /** A node passes a type on its way exactly when a sequence of edges visits a node of that type. */
  lemma {:induction false} ThroughFollowsEdges(t: Topology, a: string, b: string, via: string)
    requires exists n :: n in t.nodes && n.id == a
    ensures Uncached(t, QPathThrough(a, b, via))
         == Yes(exists p, n :: EdgeTrail(t, p, a, b) && n in t.nodes && n.typ == via && n.id in p)
  {
    KnownNode(t, a);
    if p, n :| EdgeTrail(t, p, a, b) && n in t.nodes && n.typ == via && n.id in p {
      WalkIsTrail(t, p);
    }
    if PathThrough(t, a, b, via) {
      var p, n :| Walk(Flow(t.edges), Anywhere, p) && p[0] == a && p[|p| - 1] == b && n in t.nodes && n.typ == via && n.id in p;
      WalkIsTrail(t, p);
      assert EdgeTrail(t, p, a, b);
    }
  }

  /** The node's kind attribute, "" where it holds no text. */
  function KindAttr(n: Node): string {
    if "kind" in n.attrs && n.attrs["kind"].Str? then n.attrs["kind"].s else ""
  }

  /** A block by attribute stops what sets the attribute to true itself: not "true", not 1. */
  lemma BlocksByAttr(n: Node, typ: string, attr: string)
    ensures Blocks(ByType(typ), n) <==> n.typ == typ
    ensures attr !in n.attrs || !n.attrs[attr].Bool? || !n.attrs[attr].b ==> !Blocks(ByAttr(attr), n)
    ensures attr in n.attrs && n.attrs[attr].Bool? && n.attrs[attr].b ==> Blocks(ByAttr(attr), n)
  {}

  /** A block by type and kind stops every node of the types when no kinds are named, and only those of the kinds
      otherwise; the attribute stops nodes of its own types, and none when it is not named. */
  lemma BlocksByKind(n: Node, types: seq<string>, kinds: seq<string>, attrTypes: seq<string>, attr: string)
    ensures n.typ !in types && n.typ !in attrTypes ==> !Blocks(ByKinds(types, kinds, attrTypes, attr), n)
    ensures n.typ in types ==> Blocks(ByKinds(types, [], attrTypes, attr), n)
    ensures n.typ in types && kinds != [] && attr == "" ==>
              (Blocks(ByKinds(types, kinds, attrTypes, attr), n) <==> KindAttr(n) in kinds)
    ensures n.typ in attrTypes && attr != "" && attr in n.attrs && n.attrs[attr] == Bool(true) ==>
              Blocks(ByKinds(types, kinds, attrTypes, attr), n)
    ensures n.typ !in types && (attr == "" || attr !in n.attrs || n.attrs[attr] != Bool(true)) ==>
              !Blocks(ByKinds(types, kinds, attrTypes, attr), n)
  {}

  /** A block by function stops a node of the types that declares functions exactly when it declares all the
      needed ones, whatever its kind; one that declares none goes by its kind. */
  lemma BlocksByFunction(n: Node, types: seq<string>, kinds: seq<string>, need: seq<string>)
    ensures n.typ !in types ==> !Blocks(ByFunctions(types, kinds, need), n)
    ensures n.typ in types && (exists f :: f != "" && Declares(n, f)) ==>
              (Blocks(ByFunctions(types, kinds, need), n) <==> forall f | f in need :: f != "" && Declares(n, f))
    ensures n.typ in types && (forall f | Declares(n, f) :: f == "") ==>
              (Blocks(ByFunctions(types, kinds, need), n) <==> kinds == [] || KindAttr(n) in kinds)
  {
    forall f ensures f in DeclaredFunctions(n.attrs) <==> f != "" && Declares(n, f) {}
  }

  /** The functions attribute lists f among its items. */
  predicate Declares(n: Node, f: string) {
    "functions" in n.attrs && n.attrs["functions"].Arr? && Str(f) in n.attrs["functions"].items
  }

  // ---- lists -------------------------------------------------------------------------------------

  /** What feeds a node: the other nodes of the layer ("" is any) from which a sequence of edges moves data to it,
      and the zones those are in. */
  predicate Source(t: Topology, n: Node, target: string, layer: string, p: seq<string>) {
    n in t.nodes && n.id != target && (layer == "" || n.layer == layer) && DataTrail(t, p, n.id, target)
  }

  lemma {:induction false} FeedsByTrail(t: Topology, n: Node, target: string, layer: string)
    requires n in t.nodes
    ensures Feeds(t, n, target, layer) <==> exists p :: Source(t, n, target, layer, p)
  {
    if Feeds(t, n, target, layer) {
      var p :| Walk(DataArrows(t.edges), Anywhere, p) && p[0] == n.id && p[|p| - 1] == target;
      WalkIsTrail(t, p);
      assert Source(t, n, target, layer, p);
    }
    if p :| Source(t, n, target, layer, p) {
      WalkIsTrail(t, p);
    }
  }

  lemma {:induction false} DataSourcesAre(t: Topology, target: string, layer: string, id: string)
    requires IsNode(t, target)
    ensures id in Uncached(t, QDataSources(target, layer)).texts <==>
            exists n: Node, p :: n.id == id && Source(t, n, target, layer, p)
  {
    SourceIdsHas(t, t.nodes, target, layer, id);
    if id in SourceIds(t, t.nodes, target, layer) {
      var n :| n in t.nodes && n.id == id && Feeds(t, n, target, layer);
      FeedsByTrail(t, n, target, layer);
    }
    if n: Node, p :| n.id == id && Source(t, n, target, layer, p) {
      FeedsByTrail(t, n, target, layer);
    }
  }

  lemma {:induction false} SourceIdsHas(t: Topology, nodes: seq<Node>, target: string, layer: string, id: string)
    ensures id in SourceIds(t, nodes, target, layer) <==> exists n :: n in nodes && n.id == id && Feeds(t, n, target, layer)
  {
    if nodes != [] {
      var rest, last := nodes[..|nodes| - 1], nodes[|nodes| - 1];
      assert nodes == rest + [last];
      SourceIdsHas(t, rest, target, layer, id);
    }
  }

  lemma {:induction false} DataZonesAre(t: Topology, target: string, layer: string, zone: string)
    requires IsNode(t, target)
    ensures zone in Uncached(t, QDataZones(target, layer)).texts <==>
            zone != "" && exists n: Node, p :: n.zone == zone && Source(t, n, target, layer, p)
  {
    SourceZonesHas(t, t.nodes, target, layer, zone);
    if zone in SourceZones(t, t.nodes, target, layer) {
      var n :| n in t.nodes && n.zone == zone && Feeds(t, n, target, layer);
      FeedsByTrail(t, n, target, layer);
    }
    if n: Node, p :| n.zone == zone && Source(t, n, target, layer, p) {
      FeedsByTrail(t, n, target, layer);
    }
  }

  lemma {:induction false} SourceZonesHas(t: Topology, nodes: seq<Node>, target: string, layer: string, zone: string)
    ensures zone in SourceZones(t, nodes, target, layer) <==>
            zone != "" && exists n :: n in nodes && n.zone == zone && Feeds(t, n, target, layer)
  {
    if nodes != [] {
      var rest, last := nodes[..|nodes| - 1], nodes[|nodes| - 1];
      assert nodes == rest + [last];
      SourceZonesHas(t, rest, target, layer, zone);
    }
  }

  /** Every zone is listed once. */
  lemma {:induction false} ZonesOnce(t: Topology, nodes: seq<Node>, target: string, layer: string, i: nat, j: nat)
    requires i < j < |SourceZones(t, nodes, target, layer)|
    ensures SourceZones(t, nodes, target, layer)[i] != SourceZones(t, nodes, target, layer)[j]
  {
    var rest := nodes[..|nodes| - 1];
    if j < |SourceZones(t, rest, target, layer)| {
      ZonesOnce(t, rest, target, layer, i, j);
    } else {
      assert SourceZones(t, nodes, target, layer)[i] == SourceZones(t, rest, target, layer)[i];
    }
  }

  /** x stands before y in the model. */
  predicate Precedes(all: seq<string>, x: string, y: string) {
    exists i, j :: 0 <= i < j < |all| && all[i] == x && all[j] == y
  }

  predicate InOrder(out: seq<string>, all: seq<string>) {
    (forall i | 0 <= i < |out| :: out[i] in all)
    && forall i, j | 0 <= i < j < |out| :: Precedes(all, out[i], out[j])
  }

  function IdsIn(nodes: seq<Node>): seq<string> { seq(|nodes|, i requires 0 <= i < |nodes| => nodes[i].id) }

  function ZonesIn(nodes: seq<Node>): seq<string> { seq(|nodes|, i requires 0 <= i < |nodes| => nodes[i].zone) }

  lemma {:induction false} OrderStep(out: seq<string>, all: seq<string>, last: string)
    requires InOrder(out, all)
    ensures InOrder(out, all + [last]) && InOrder(out + [last], all + [last])
  {
    var longer := all + [last];
    forall i, j | 0 <= i < j < |out| ensures Precedes(longer, out[i], out[j]) {
      assert Precedes(all, out[i], out[j]);
      var x, y :| 0 <= x < y < |all| && all[x] == out[i] && all[y] == out[j];
      assert longer[x] == out[i] && longer[y] == out[j];
    }
    forall i | 0 <= i < |out| ensures out[i] in longer && Precedes(longer, out[i], last) {
      var x :| 0 <= x < |all| && all[x] == out[i];
      assert longer[x] == out[i] && longer[|all|] == last;
    }
  }

  /** Data sources, their zones and writers come in model order. */
  lemma {:induction false} ListsInOrder(t: Topology, nodes: seq<Node>, target: string, layer: string, typ: string)
    ensures InOrder(SourceIds(t, nodes, target, layer), IdsIn(nodes))
    ensures InOrder(SourceZones(t, nodes, target, layer), ZonesIn(nodes))
    ensures InOrder(Writers(t, nodes, typ), IdsIn(nodes))
  {
    if nodes != [] {
      var rest, last := nodes[..|nodes| - 1], nodes[|nodes| - 1];
      ListsInOrder(t, rest, target, layer, typ);
      assert IdsIn(nodes) == IdsIn(rest) + [last.id] && ZonesIn(nodes) == ZonesIn(rest) + [last.zone];
      OrderStep(SourceIds(t, rest, target, layer), IdsIn(rest), last.id);
      OrderStep(SourceZones(t, rest, target, layer), ZonesIn(rest), last.zone);
      OrderStep(Writers(t, rest, typ), IdsIn(rest), last.id);
    }
  }

  /** The writers into a type: the nodes an edge writes or executes from, into a node of the type. */
  lemma {:induction false} WritersAre(t: Topology, typ: string, id: string)
    requires Built(t) && typ != ""
    ensures id in Uncached(t, QWritersInto(typ)).texts <==>
            (exists n :: n in t.nodes && n.id == id)
            && exists e, n :: e in t.edges && n in t.nodes && e.kind in {"writes", "executes"} && e.from == id && e.to == n.id && n.typ == typ
  {
    WritersHas(t, t.nodes, typ, id);
    if WritesInto(t, id, typ) {
      var e :| e in t.edges && (e.kind == "writes" || e.kind == "executes") && e.from == id && TypeOf(t, e.to) == typ;
      assert t.nodeByID[e.to] in t.nodes;
    }
    if e, n :| e in t.edges && n in t.nodes && e.kind in {"writes", "executes"} && e.from == id && e.to == n.id && n.typ == typ {
      assert TypeOf(t, e.to) == typ;
    }
  }

  lemma {:induction false} WritersHas(t: Topology, nodes: seq<Node>, typ: string, id: string)
    ensures id in Writers(t, nodes, typ) <==> (exists n :: n in nodes && n.id == id) && WritesInto(t, id, typ)
  {
    if nodes != [] {
      var rest, last := nodes[..|nodes| - 1], nodes[|nodes| - 1];
      assert nodes == rest + [last];
      WritersHas(t, rest, typ, id);
    }
  }

  /** Nodes are found by id and by type as they stand in the model. */
  lemma {:induction false} BuiltLooksUp(t: Topology, n: Node)
    requires Built(t)
    ensures n in t.nodes ==> n.id in t.nodeByID && t.nodeByID[n.id] == n
    ensures n in TypeAt(t.nodesByType, n.typ) <==> n in t.nodes
    ensures forall typ | n in TypeAt(t.nodesByType, typ) :: typ == n.typ
  {
    forall typ ensures n in TypeAt(t.nodesByType, typ) <==> n in t.nodes && n.typ == typ {
      OfTypeHas(t.nodes, typ, n);
    }
  }

  lemma {:induction false} OfTypeHas(nodes: seq<Node>, typ: string, n: Node)
    ensures n in OfType(nodes, typ) <==> n in nodes && n.typ == typ
  {
    if nodes != [] {
      var rest, last := nodes[..|nodes| - 1], nodes[|nodes| - 1];
      assert nodes == rest + [last];
      OfTypeHas(rest, typ, n);
    }
  }
}
