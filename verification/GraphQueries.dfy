/** The graph value of rules/cel.go with its memo tables: every query answers what it answers without
    a cache, in any sequence and through shallow copies that share the tables. */
module GraphQueries {
  import opened Json
  import opened Text
  import opened Walks
  import opened Graphs

  // ---- cache keys --------------------------------------------------------------------------------

  const NUL: char := 0 as char

  type UpKey = (string, string, string, string, string)

  const FUNCTIONS_FORM: string := [1 as char] + "functions"

  /** The key of an avoiding walk: the form and the name. */
  function AvoidKey(b: Block): string
    requires b.ByType? || b.ByAttr?
  {
    if b.ByType? then "type:" + b.avoid else "attr:" + b.attr
  }

  /** The key of an upstream walk: lists joined with NUL; the fourth slot names the functions form. */
  function UpstreamKey(id: string, b: Block): UpKey
    requires Upward(b)
  {
    if b.ByKinds? then
      (id, Join(b.types, NUL), Join(b.kinds, NUL), Join(b.attrTypes, NUL), b.attr)
    else
      (id, Join(b.types, NUL), Join(b.kinds, NUL), FUNCTIONS_FORM, Join(b.need, NUL))
  }

  predicate Upward(b: Block) { b.ByKinds? || b.ByFunctions? }

  /** No element of a list holds the separator. */
  predicate NulFree(b: Block) {
    match b
    case ByType(_) => true
    case ByAttr(_) => true
    case ByKinds(types, kinds, attrTypes, _) => FreeOf(types, NUL) && FreeOf(kinds, NUL) && FreeOf(attrTypes, NUL)
    case ByFunctions(types, kinds, need) => FreeOf(types, NUL) && FreeOf(kinds, NUL) && FreeOf(need, NUL)
  }

  /** No list holds just one empty string, and no list of attribute types just the name of the other form. */
  predicate Clean(b: Block) {
    NulFree(b)
    && match b
       case ByType(_) => true
       case ByAttr(_) => true
       case ByKinds(types, kinds, attrTypes, _) =>
         types != [""] && kinds != [""] && attrTypes != [""] && attrTypes != [FUNCTIONS_FORM]
       case ByFunctions(types, kinds, need) => types != [""] && kinds != [""] && need != [""]
  }

  /** The lists have the same pieces between separators: what their joined texts show. */
  predicate SameJoin(a: seq<string>, b: seq<string>) { Pieces(a, NUL) == Pieces(b, NUL) }

  /** The requests a key of the tables does not tell apart. */
  predicate SameSlots(b: Block, b': Block)
    requires Upward(b) && Upward(b')
  {
    SameJoin(b.types, b'.types) && SameJoin(b.kinds, b'.kinds)
    && match (b, b')
       case (ByKinds(_, _, x, attr), ByKinds(_, _, y, attr')) => SameJoin(x, y) && attr == attr'
       case (ByFunctions(_, _, x), ByFunctions(_, _, y)) => SameJoin(x, y)
       case (ByKinds(_, _, x, attr), ByFunctions(_, _, need)) => SameJoin(x, [FUNCTIONS_FORM]) && attr == Join(need, NUL)
       case (ByFunctions(_, _, need), ByKinds(_, _, x, attr)) => SameJoin(x, [FUNCTIONS_FORM]) && attr == Join(need, NUL)
       case _ => false
  }

  /** Exactly which requests share a key. */
  lemma {:induction false} KeysMeet(id: string, b: Block, id': string, b': Block)
    requires Upward(b) && Upward(b')
    ensures UpstreamKey(id, b) == UpstreamKey(id', b') <==> id == id' && SameSlots(b, b')
  {
    JoinSame(b.types, b'.types, NUL);
    JoinSame(b.kinds, b'.kinds, NUL);
    if b.ByKinds? {
      JoinSame(b.attrTypes, [FUNCTIONS_FORM], NUL);
      if b'.ByKinds? {
        JoinSame(b.attrTypes, b'.attrTypes, NUL);
      }
    } else if b'.ByKinds? {
      JoinSame(b'.attrTypes, [FUNCTIONS_FORM], NUL);
    } else {
      JoinSame(b.need, b'.need, NUL);
    }
  }

  /** Of two lists free of the separator: they are equal, or one is empty and the other holds one empty
      string. */
  lemma {:induction false} SameJoinIff(a: seq<string>, b: seq<string>)
    requires FreeOf(a, NUL) && FreeOf(b, NUL)
    ensures SameJoin(a, b) <==> a == b || (a == [] && b == [""]) || (a == [""] && b == [])
  {
    JoinSame(a, b, NUL);
    JoinInjective(a, b, NUL);
  }

  /** The joined keys tell clean requests apart. */
  lemma {:induction false} UpstreamKeyInjective(id: string, b: Block, id': string, b': Block)
    requires Upward(b) && Upward(b') && Clean(b) && Clean(b')
    requires UpstreamKey(id, b) == UpstreamKey(id', b')
    ensures id == id' && b == b'
  {
    KeysMeet(id, b, id', b');
    SameJoinIff(b.types, b'.types);
    SameJoinIff(b.kinds, b'.kinds);
    assert FreeOf([FUNCTIONS_FORM], NUL);
    if b.ByKinds? {
      SameJoinIff(b.attrTypes, [FUNCTIONS_FORM]);
      if b'.ByKinds? {
        SameJoinIff(b.attrTypes, b'.attrTypes);
      }
    } else if b'.ByKinds? {
      SameJoinIff(b'.attrTypes, [FUNCTIONS_FORM]);
    } else {
      SameJoinIff(b.need, b'.need);
    }
  }

  // ---- a wrong answer ----------------------------------------------------------------------------

  const ANY_KIND: Block := ByKinds(["t"], [], [], "")
  const NO_KIND: Block := ByKinds(["t"], [""], [], "")

  /** The target x is of the blocked type, and s has an edge to it. */
  predicate TwoNodes(t: Topology) {
    t.nodes == [Node("s", "", "", "", map[]), Node("x", "t", "", "", map["kind" := Str("k")])]
    && t.edges == [Edge("s", "x", "calls")]
  }

  lemma {:induction false} TwoNodesBlocked(t: Topology)
    requires TwoNodes(t)
    ensures !GateOf(t.nodes, ANY_KIND).Lets("x") && GateOf(t.nodes, NO_KIND).Lets("x")
  {
    var x := t.nodes[1];
    assert StringAt(x.attrs, "kind") == "k" && "k" !in [""];
    assert Blocks(ANY_KIND, x) && !Blocks(NO_KIND, x);
    assert x in t.nodes && x.id == "x";
    assert forall n | n in t.nodes && n.id == "x" :: n == x;
  }

  lemma {:induction false} TwoNodesReach(t: Topology)
    requires TwoNodes(t)
    ensures !Reaches(Flow(t.edges), GateOf(t.nodes, ANY_KIND), "s", "x")
    ensures Reaches(Flow(t.edges), GateOf(t.nodes, NO_KIND), "s", "x")
  {
    TwoNodesBlocked(t);
    forall p | Walk(Flow(t.edges), GateOf(t.nodes, ANY_KIND), p) && p[0] == "s" ensures p[|p| - 1] != "x" {
      assert |p| > 1 ==> Hop(Flow(t.edges), GateOf(t.nodes, ANY_KIND), p[|p| - 2], p[|p| - 1]);
    }
    assert t.edges[0] == Edge("s", "x", "calls");
    assert Flow(t.edges) == [("s", "x")];
    ReachesSelf(Flow(t.edges), GateOf(t.nodes, NO_KIND), "s");
    ReachesOneMore(Flow(t.edges), GateOf(t.nodes, NO_KIND), "s", "s", "x");
  }

  /** One empty string in a list breaks the tables: on this graph two requests that share a key have
      different answers. */
  lemma {:induction false} EmptyElementCollides(t: Topology)
    requires TwoNodes(t)
    ensures UpstreamKey("x", ANY_KIND) == UpstreamKey("x", NO_KIND)
    ensures Upstream(t, "x", ANY_KIND) != Upstream(t, "x", NO_KIND)
  {
    KeysMeet("x", ANY_KIND, "x", NO_KIND);
    assert t.nodes[1].id == "x" && t.nodes[0] in t.nodes && t.nodes[0].id == "s";
    assert IsNode(t, "x") && IsNode(t, "s");
    TwoNodesReach(t);
    UpstreamIsForward(t, "x", ANY_KIND, t.nodes[0]);
    UpstreamIsForward(t, "x", NO_KIND, t.nodes[0]);
  }

  lemma AvoidKeyInjective(b: Block, b': Block)
    requires (b.ByType? || b.ByAttr?) && (b'.ByType? || b'.ByAttr?) && AvoidKey(b) == AvoidKey(b')
    ensures b == b'
  {
    assert AvoidKey(b)[..5] == if b.ByType? then "type:" else "attr:";
    assert AvoidKey(b')[..5] == if b'.ByType? then "type:" else "attr:";
    assert "type:"[0] != "attr:"[0];
    assert AvoidKey(b)[5..] == if b.ByType? then b.avoid else b.attr;
    assert AvoidKey(b')[5..] == if b'.ByType? then b'.avoid else b'.attr;
  }

  // ---- the tables --------------------------------------------------------------------------------

  class Caches {
    var fwd: map<string, set<string>>
    var bwd: map<string, set<string>>
    var pathCache: map<(string, string, string), bool>
    var avoid: map<(string, string), set<string>>
    var upAvoid: map<UpKey, seq<Node>>
    var dataFwd: map<string, set<string>>
    var dataBwd: map<string, set<string>>
    var writers: map<string, seq<string>>

    constructor ()
      ensures forall t :: Built(t) ==> Sound(t)
    {
      fwd, bwd, pathCache, avoid, upAvoid, dataFwd, dataBwd, writers := map[], map[], map[], map[], map[], map[], map[], map[];
    }

    /** Every stored answer is the answer the definition gives for its key. */
    ghost predicate Sound(t: Topology)
      reads this
    {
      (forall id | id in fwd :: IsReach(Flow(t.edges), Anywhere, id, fwd[id]))
      && (forall id | id in bwd :: IsReach(Reverse(Flow(t.edges)), Anywhere, id, bwd[id]))
      && (forall k | k in pathCache :: pathCache[k] == PathThrough(t, k.0, k.1, k.2))
      && SoundAvoid(t) && SoundUpstream(t)
      && (forall id | id in dataFwd :: IsReach(DataArrows(t.edges), Anywhere, id, dataFwd[id]))
      && (forall id | id in dataBwd :: IsReach(Reverse(DataArrows(t.edges)), Anywhere, id, dataBwd[id]))
      && (forall typ | typ in writers :: writers[typ] == Writers(t, t.nodes, typ))
    }

    ghost predicate SoundAvoid(t: Topology)
      reads this
    {
      forall from: string, b: Block | (b.ByType? || b.ByAttr?) && (from, AvoidKey(b)) in avoid ::
        IsReach(Flow(t.edges), GateOf(t.nodes, b), from, avoid[(from, AvoidKey(b))])
    }

    ghost predicate SoundUpstream(t: Topology)
      reads this
    {
      forall id: string, b: Block | Upward(b) && Clean(b) && UpstreamKey(id, b) in upAvoid ::
        upAvoid[UpstreamKey(id, b)] == Upstream(t, id, b)
    }
  }

  // ---- the graph value ---------------------------------------------------------------------------

  datatype Query =
    | QReachable(from: string, to: string)
    | QPathThrough(from: string, to: string, via: string)
    | QPathAvoiding(from: string, to: string, block: Block)
    | QUpstreamAttr(id: string, attr: string)
    | QUpstream(id: string, block: Block)
    | QDataFlows(from: string, to: string)
    | QDataSources(id: string, layer: string)
    | QDataZones(id: string, layer: string)
    | QWritersInto(typ: string)

  datatype Answer = Yes(b: bool) | Nodes(nodes: seq<Node>) | Texts(texts: seq<string>)

  /** The callers' side of the keys: clean lists, and each helper with a block of its own form. */
  predicate Asked(q: Query) {
    (q.QPathAvoiding? ==> q.block.ByType? || q.block.ByAttr?)
    && (q.QUpstream? ==> Upward(q.block) && Clean(q.block))
  }

  /** What a query answers without any cache. */
  ghost function Uncached(t: Topology, q: Query): Answer {
    match q
    case QReachable(from, to) => Yes(Reachable(t, from, to))
    case QPathThrough(from, to, via) => Yes(PathThrough(t, from, to, via))
    case QPathAvoiding(from, to, b) => Yes(PathAvoiding(t, from, to, b))
    case QUpstreamAttr(id, attr) => Nodes(Upstream(t, id, ByAttr(attr)))
    case QUpstream(id, b) => Nodes(Upstream(t, id, b))
    case QDataFlows(from, to) => Yes(DataFlows(t, from, to))
    case QDataSources(id, layer) => Texts(if IsNode(t, id) then SourceIds(t, t.nodes, id, layer) else [])
    case QDataZones(id, layer) => Texts(if IsNode(t, id) then SourceZones(t, t.nodes, id, layer) else [])
    case QWritersInto(typ) => Texts(Writers(t, t.nodes, typ))
  }

  class Graph {
    const topo: Topology
    const caches: Caches
    var attrs: Members

    ghost predicate Valid()
      reads caches
    {
      Built(topo) && caches.Sound(topo)
    }

    constructor (t: Topology, attrs: Members)
      requires Built(t)
      ensures Valid() && topo == t && this.attrs == attrs && fresh(caches)
    {
      topo := t;
      caches := new Caches();
      this.attrs := attrs;
    }

    /** The shallow copy the coverage pass makes: other attributes, the same tables. */
    constructor Copy(g: Graph, attrs: Members)
      requires g.Valid()
      ensures Valid() && topo == g.topo && caches == g.caches && this.attrs == attrs
    {
      topo := g.topo;
      caches := g.caches;
      this.attrs := attrs;
    }

    predicate Knows(id: string) {
      id in topo.nodeByID
    }

    lemma KnowsNodes(id: string)
      requires Built(topo)
      ensures Knows(id) <==> IsNode(topo, id)
    {
      if Knows(id) {
        var i :| 0 <= i < |topo.nodes| && topo.nodes[i] == topo.nodeByID[id];
        assert topo.nodes[i].id == id;
      }
      if IsNode(topo, id) {
        var i :| 0 <= i < |topo.nodes| && topo.nodes[i].id == id;
        assert topo.nodes[i] in topo.nodes;
      }
    }

    method Forward(id: string) returns (s: set<string>)
      requires Valid()
      modifies caches`fwd
      ensures Valid() && IsReach(Flow(topo.edges), Anywhere, id, s)
    {
      if id in caches.fwd {
        return caches.fwd[id];
      }
      s := Search(id, topo.outAdj, Anywhere, Flow(topo.edges));
      caches.fwd := caches.fwd[id := s];
    }

    method Backward(id: string) returns (s: set<string>)
      requires Valid()
      modifies caches`bwd
      ensures Valid() && IsReach(Reverse(Flow(topo.edges)), Anywhere, id, s)
    {
      if id in caches.bwd {
        return caches.bwd[id];
      }
      s := Search(id, topo.inAdj, Anywhere, Reverse(Flow(topo.edges)));
      caches.bwd := caches.bwd[id := s];
    }

    method ReachableFrom(from: string, to: string) returns (r: bool)
      requires Valid()
      modifies caches`fwd
      ensures Valid() && r == Reachable(topo, from, to)
    {
      KnowsNodes(from);
      if !Knows(from) {
        return false;
      }
      var s := Forward(from);
      return to in s;
    }

    method PassesThrough(from: string, to: string, via: string) returns (r: bool)
      requires Valid()
      modifies caches`fwd, caches`bwd, caches`pathCache
      ensures Valid() && r == PathThrough(topo, from, to, via)
    {
      var key := (from, to, via);
      if key in caches.pathCache {
        return caches.pathCache[key];
      }
      r := SearchThrough(from, to, via);
      caches.pathCache := caches.pathCache[key := r];
    }

    method SearchThrough(from: string, to: string, via: string) returns (r: bool)
      requires Valid()
      modifies caches`fwd, caches`bwd
      ensures Valid() && r == PathThrough(topo, from, to, via)
    {
      KnowsNodes(from);
      if !Knows(from) {
        return false;
      }
      var f := Forward(from);
      if to !in f {
        forall p | Walk(Flow(topo.edges), Anywhere, p) && p[0] == from ensures p[|p| - 1] != to {
          assert p[|p| - 1] == to ==> Reaches(Flow(topo.edges), Anywhere, from, to);
        }
        return false;
      }
      var b := Backward(to);
      r := AnyStop(TypeAt(topo.nodesByType, via), f, b);
      OfTypeHas(topo.nodes, via);
      StopsDecide(from, to, via, f, b);
    }

    static method AnyStop(stops: seq<Node>, f: set<string>, b: set<string>) returns (r: bool)
      ensures r <==> exists v :: v in stops && v.id in f && v.id in b
    {
      for i := 0 to |stops|
        invariant forall j | 0 <= j < i :: !(stops[j].id in f && stops[j].id in b)
      {
        if stops[i].id in f && stops[i].id in b {
          return true;
        }
      }
      return false;
    }

    lemma StopsDecide(from: string, to: string, via: string, f: set<string>, b: set<string>)
      requires IsNode(topo, from)
      requires IsReach(Flow(topo.edges), Anywhere, from, f) && IsReach(Reverse(Flow(topo.edges)), Anywhere, to, b)
      ensures PathThrough(topo, from, to, via) <==>
              exists v :: v in topo.nodes && v.typ == via && v.id in f && v.id in b
    {
      forall v | v in topo.nodes
        ensures v.id in f && v.id in b <==>
                exists p :: Walk(Flow(topo.edges), Anywhere, p) && p[0] == from && p[|p| - 1] == to && v.id in p
      {
        ThroughNode(from, to, v, f, b);
      }
    }

    lemma ThroughNode(from: string, to: string, v: Node, f: set<string>, b: set<string>)
      requires IsReach(Flow(topo.edges), Anywhere, from, f) && IsReach(Reverse(Flow(topo.edges)), Anywhere, to, b)
      ensures v.id in f && v.id in b <==>
              exists p :: Walk(Flow(topo.edges), Anywhere, p) && p[0] == from && p[|p| - 1] == to && v.id in p
    {
      ReverseReachesIff(Flow(topo.edges), v.id, to);
      ReachesThrough(Flow(topo.edges), from, v.id, to);
    }

    method AvoidingWalk(from: string, b: Block) returns (s: set<string>)
      requires Valid() && (b.ByType? || b.ByAttr?)
      modifies caches`avoid
      ensures Valid() && forall x :: x in s <==> PathAvoiding(topo, from, x, b)
    {
      KnowsNodes(from);
      if !Knows(from) {
        return {};
      }
      var key := (from, AvoidKey(b));
      if key in caches.avoid {
        return caches.avoid[key];
      }
      s := Search(from, topo.outAdj, GateOf(topo.nodes, b), Flow(topo.edges));
      ghost var was := caches.avoid;
      caches.avoid := caches.avoid[key := s];
      forall from': string, b': Block | (b'.ByType? || b'.ByAttr?) && (from', AvoidKey(b')) in caches.avoid
        ensures IsReach(Flow(topo.edges), GateOf(topo.nodes, b'), from', caches.avoid[(from', AvoidKey(b'))])
      {
        if (from', AvoidKey(b')) == key {
          AvoidKeyInjective(b, b');
        }
      }
    }

    /** The nodes, in model order, whose id is among the sources. */
    method Collect(sources: set<string>, ghost target: string, ghost b: Block) returns (out: seq<Node>)
      requires forall x :: x in sources <==> Reaches(Flow(topo.edges), GateOf(topo.nodes, b), x, target)
      ensures out == SourcesAmong(topo, topo.nodes, target, b)
    {
      out := [];
      for i := 0 to |topo.nodes|
        invariant out == SourcesAmong(topo, topo.nodes[..i], target, b)
      {
        SourcesMore(topo, i, target, b);
        if topo.nodes[i].id in sources {
          out := out + [topo.nodes[i]];
        }
      }
      assert topo.nodes[..|topo.nodes|] == topo.nodes;
    }

    method UpstreamWalk(target: string, b: Block) returns (out: seq<Node>)
      requires Built(topo)
      ensures out == Upstream(topo, target, b)
    {
      KnowsNodes(target);
      if !Knows(target) {
        return [];
      }
      var sources := SearchBack(target, topo.inAdj, GateOf(topo.nodes, b), Flow(topo.edges));
      out := Collect(sources, target, b);
    }

    /** The table decides when it holds the key; else the walk does, and goes into the table. */
    method UpstreamThroughTable(target: string, b: Block) returns (out: seq<Node>)
      requires Built(topo) && Upward(b)
      modifies caches`upAvoid
      ensures !IsNode(topo, target) ==> out == [] && caches.upAvoid == old(caches.upAvoid)
      ensures IsNode(topo, target) ==>
                var key, table := UpstreamKey(target, b), old(caches.upAvoid);
                out == (if key in table then table[key] else Upstream(topo, target, b)) && caches.upAvoid == table[key := out]
    {
      KnowsNodes(target);
      if !Knows(target) {
        return [];
      }
      var key := UpstreamKey(target, b);
      if key in caches.upAvoid {
        return caches.upAvoid[key];
      }
      out := UpstreamWalk(target, b);
      caches.upAvoid := caches.upAvoid[key := out];
    }

    method UpstreamAvoiding(target: string, b: Block) returns (out: seq<Node>)
      requires Valid() && Upward(b) && Clean(b)
      modifies caches`upAvoid
      ensures Valid() && out == Upstream(topo, target, b)
    {
      out := UpstreamThroughTable(target, b);
      var key := UpstreamKey(target, b);
      forall id': string, b': Block | Upward(b') && Clean(b') && UpstreamKey(id', b') in caches.upAvoid
        ensures caches.upAvoid[UpstreamKey(id', b')] == Upstream(topo, id', b')
      {
        if UpstreamKey(id', b') == key {
          UpstreamKeyInjective(target, b, id', b');
        }
      }
    }

    method DataForward(id: string) returns (s: set<string>)
      requires Valid()
      modifies caches`dataFwd
      ensures Valid() && IsReach(DataArrows(topo.edges), Anywhere, id, s)
    {
      if id in caches.dataFwd {
        return caches.dataFwd[id];
      }
      s := Search(id, topo.dataAdj, Anywhere, DataArrows(topo.edges));
      caches.dataFwd := caches.dataFwd[id := s];
    }

    /** The nodes whose data reaches id, itself included. */
    method DataUpstream(id: string) returns (s: set<string>)
      requires Valid()
      modifies caches`dataBwd
      ensures Valid() && forall x :: x in s <==> Reaches(DataArrows(topo.edges), Anywhere, x, id)
    {
      if id in caches.dataBwd {
        s := caches.dataBwd[id];
      } else {
        s := Search(id, topo.dataRev, Anywhere, Reverse(DataArrows(topo.edges)));
        caches.dataBwd := caches.dataBwd[id := s];
      }
      forall x ensures x in s <==> Reaches(DataArrows(topo.edges), Anywhere, x, id) {
        ReverseReachesIff(DataArrows(topo.edges), x, id);
      }
    }

    method DataMoves(from: string, to: string) returns (r: bool)
      requires Valid()
      modifies caches`dataFwd
      ensures Valid() && r == DataFlows(topo, from, to)
    {
      KnowsNodes(from);
      if !Knows(from) {
        return false;
      }
      var s := DataForward(from);
      return to in s;
    }

    method DataSources(id: string, layer: string) returns (out: seq<string>)
      requires Valid()
      modifies caches`dataBwd
      ensures Valid() && Texts(out) == Uncached(topo, QDataSources(id, layer))
    {
      KnowsNodes(id);
      if !Knows(id) {
        return [];
      }
      var up := DataUpstream(id);
      out := IdsOf(up, id, layer);
    }

    method IdsOf(up: set<string>, id: string, layer: string) returns (out: seq<string>)
      requires forall x :: x in up <==> Reaches(DataArrows(topo.edges), Anywhere, x, id)
      ensures out == SourceIds(topo, topo.nodes, id, layer)
    {
      out := [];
      for i := 0 to |topo.nodes|
        invariant out == SourceIds(topo, topo.nodes[..i], id, layer)
      {
        var n := topo.nodes[i];
        assert topo.nodes[..i + 1][..i] == topo.nodes[..i];
        assert Feeds(topo, n, id, layer) <==> n.id != id && n.id in up && (layer == "" || n.layer == layer);
        if n.id != id && n.id in up && (layer == "" || n.layer == layer) {
          out := out + [n.id];
        }
      }
      assert topo.nodes[..|topo.nodes|] == topo.nodes;
    }

    method DataZones(id: string, layer: string) returns (out: seq<string>)
      requires Valid()
      modifies caches`dataBwd
      ensures Valid() && Texts(out) == Uncached(topo, QDataZones(id, layer))
    {
      KnowsNodes(id);
      if !Knows(id) {
        return [];
      }
      var up := DataUpstream(id);
      out := ZonesOf(up, id, layer);
    }

    method ZonesOf(up: set<string>, id: string, layer: string) returns (out: seq<string>)
      requires forall x :: x in up <==> Reaches(DataArrows(topo.edges), Anywhere, x, id)
      ensures out == SourceZones(topo, topo.nodes, id, layer)
    {
      var seen := {};
      out := [];
      for i := 0 to |topo.nodes|
        invariant out == SourceZones(topo, topo.nodes[..i], id, layer)
        invariant seen == set z | z in out
      {
        var n := topo.nodes[i];
        assert topo.nodes[..i + 1][..i] == topo.nodes[..i];
        assert Feeds(topo, n, id, layer) <==> n.id != id && n.id in up && (layer == "" || n.layer == layer);
        if !(n.id == id || n.id !in up || n.zone == "" || n.zone in seen || (layer != "" && n.layer != layer)) {
          seen := seen + {n.zone};
          out := out + [n.zone];
        }
      }
      assert topo.nodes[..|topo.nodes|] == topo.nodes;
    }

    method WritersInto(typ: string) returns (out: seq<string>)
      requires Valid()
      modifies caches`writers
      ensures Valid() && out == Writers(topo, topo.nodes, typ)
    {
      if typ in caches.writers {
        return caches.writers[typ];
      }
      var seen := WritingInto(typ);
      out := IdsAmong(seen, typ);
      caches.writers := caches.writers[typ := out];
    }

    method WritingInto(typ: string) returns (seen: set<string>)
      ensures forall x :: x in seen <==> WritesInto(topo, x, typ)
    {
      seen := {};
      for i := 0 to |topo.edges|
        invariant forall x :: x in seen <==>
                    exists j :: 0 <= j < i && (topo.edges[j].kind == "writes" || topo.edges[j].kind == "executes")
                                && topo.edges[j].from == x && TypeOf(topo, topo.edges[j].to) == typ
      {
        var e := topo.edges[i];
        if (e.kind == "writes" || e.kind == "executes") && TypeOf(topo, e.to) == typ {
          seen := seen + {e.from};
        }
      }
    }

    method IdsAmong(seen: set<string>, typ: string) returns (out: seq<string>)
      requires forall x :: x in seen <==> WritesInto(topo, x, typ)
      ensures out == Writers(topo, topo.nodes, typ)
    {
      out := [];
      for i := 0 to |topo.nodes|
        invariant out == Writers(topo, topo.nodes[..i], typ)
      {
        assert topo.nodes[..i + 1][..i] == topo.nodes[..i];
        if topo.nodes[i].id in seen {
          out := out + [topo.nodes[i].id];
        }
      }
      assert topo.nodes[..|topo.nodes|] == topo.nodes;
    }

    /** A helper call of a condition. */
    method Ask(q: Query) returns (a: Answer)
      requires Valid() && Asked(q)
      modifies caches
      ensures Valid() && a == Uncached(topo, q)
    {
      match q
      case QReachable(from, to) =>
        var r := ReachableFrom(from, to);
        a := Yes(r);
      case QPathThrough(from, to, via) =>
        var r := PassesThrough(from, to, via);
        a := Yes(r);
      case QPathAvoiding(from, to, b) =>
        var s := AvoidingWalk(from, b);
        a := Yes(to in s);
      case QUpstreamAttr(id, attr) =>
        var out := UpstreamWalk(id, ByAttr(attr));
        a := Nodes(out);
      case QUpstream(id, b) =>
        var out := UpstreamAvoiding(id, b);
        a := Nodes(out);
      case QDataFlows(from, to) =>
        var r := DataMoves(from, to);
        a := Yes(r);
      case QDataSources(id, layer) =>
        var out := DataSources(id, layer);
        a := Texts(out);
      case QDataZones(id, layer) =>
        var out := DataZones(id, layer);
        a := Texts(out);
      case QWritersInto(typ) =>
        var out := WritersInto(typ);
        a := Texts(out);
    }
  }

  lemma SourcesMore(t: Topology, i: nat, target: string, b: Block)
    requires i < |t.nodes|
    ensures SourcesAmong(t, t.nodes[..i + 1], target, b)
         == SourcesAmong(t, t.nodes[..i], target, b)
            + if Reaches(Flow(t.edges), GateOf(t.nodes, b), t.nodes[i].id, target) then [t.nodes[i]] else []
  {
    assert t.nodes[..i + 1][..i] == t.nodes[..i];
  }

  lemma {:induction false} OfTypeHas(nodes: seq<Node>, typ: string)
    ensures forall n :: n in OfType(nodes, typ) <==> n in nodes && n.typ == typ
  {
    if nodes != [] {
      var rest, last := nodes[..|nodes| - 1], nodes[|nodes| - 1];
      assert nodes == rest + [last];
      OfTypeHas(rest, typ);
    }
  }

  /** Any sequence of queries, each put to the graph or to a shallow copy that shares its tables,
      is answered as if there were no tables. */
  method AskAll(g: Graph, copy: Graph, queries: seq<(bool, Query)>) returns (answers: seq<Answer>)
    requires g.Valid() && copy.topo == g.topo && copy.caches == g.caches
    requires forall i | 0 <= i < |queries| :: Asked(queries[i].1)
    modifies g.caches
    ensures |answers| == |queries|
    ensures forall i | 0 <= i < |queries| :: answers[i] == Uncached(g.topo, queries[i].1)
  {
    answers := [];
    for k := 0 to |queries|
      invariant g.Valid() && |answers| == k
      invariant forall i | 0 <= i < k :: answers[i] == Uncached(g.topo, queries[i].1)
    {
      var a;
      if queries[k].0 {
        a := g.Ask(queries[k].1);
      } else {
        a := copy.Ask(queries[k].1);
      }
      answers := answers + [a];
    }
  }

  // ---- any requests, clean or not ----------------------------------------------------------------

  type Requests = r: seq<(string, Block)> | forall i | 0 <= i < |r| :: Upward(r[i].1)

  function KeysOf(queries: Requests): (keys: seq<UpKey>)
    ensures |keys| == |queries| && forall i | 0 <= i < |queries| :: keys[i] == UpstreamKey(queries[i].0, queries[i].1)
  {
    seq(|queries|, i requires 0 <= i < |queries| => UpstreamKey(queries[i].0, queries[i].1))
  }

  /** What each request answers without a table. */
  ghost function RightAnswers(t: Topology, queries: Requests): (right: seq<seq<Node>>)
    ensures |right| == |queries| && forall i | 0 <= i < |queries| :: right[i] == Upstream(t, queries[i].0, queries[i].1)
  {
    seq(|queries|, i requires 0 <= i < |queries| => Upstream(t, queries[i].0, queries[i].1))
  }

  /** The first request with the key of request i is request j. */
  predicate FirstOfKey(keys: seq<UpKey>, i: nat, j: nat) {
    j <= i < |keys| && keys[i] == keys[j] && forall k | 0 <= k < j :: keys[k] != keys[j]
  }

  /** The answer held under the key is that of the first request, among the first n, that has it. */
  ghost predicate HeldFor(keys: seq<UpKey>, right: seq<seq<Node>>, n: nat, key: UpKey, answer: seq<Node>) {
    exists j: nat :: j < n && j < |right| && FirstOfKey(keys, j, j) && keys[j] == key && answer == right[j]
  }

  /** The table after the first n requests: requests for a node of the graph are all in it. */
  ghost predicate Remembers(table: map<UpKey, seq<Node>>, t: Topology, keys: seq<UpKey>, right: seq<seq<Node>>, n: nat) {
    n <= |keys| && |right| == |keys|
    && (forall i | 0 <= i < n && IsNode(t, keys[i].0) :: keys[i] in table)
    && forall key | key in table :: HeldFor(keys, right, n, key, table[key])
  }

  /** The table or the walk answers a request as the first with its key was answered. */
  lemma {:induction false} AnswerOfFirst(table: map<UpKey, seq<Node>>, t: Topology, keys: seq<UpKey>, right: seq<seq<Node>>,
                                         n: nat, j: nat)
    requires n < |keys| && Remembers(table, t, keys, right, n) && IsNode(t, keys[n].0) && FirstOfKey(keys, n, j)
    ensures (if keys[n] in table then table[keys[n]] else right[n]) == right[j]
  {
    assert j < n ==> keys[j] in table;
    assert keys[n] in table ==> HeldFor(keys, right, n, keys[n], table[keys[n]]);
  }

  lemma {:induction false} RememberNext(table: map<UpKey, seq<Node>>, t: Topology, keys: seq<UpKey>, right: seq<seq<Node>>,
                                        n: nat, j: nat)
    requires n < |keys| && Remembers(table, t, keys, right, n) && FirstOfKey(keys, n, j)
    ensures Remembers(table[keys[n] := right[j]], t, keys, right, n + 1)
    ensures !IsNode(t, keys[n].0) ==> Remembers(table, t, keys, right, n + 1)
  {
    assert FirstOfKey(keys, j, j);
    assert HeldFor(keys, right, n + 1, keys[n], right[j]);
    forall k | k in table ensures HeldFor(keys, right, n + 1, k, table[k]) {
      assert HeldFor(keys, right, n, k, table[k]);
    }
  }

  lemma {:induction false} FirstExists(keys: seq<UpKey>, i: nat, from: nat) returns (j: nat)
    requires from <= i < |keys| && forall k | 0 <= k < from :: keys[k] != keys[i]
    ensures FirstOfKey(keys, i, j)
    decreases i - from
  {
    j := from;
    if keys[from] != keys[i] {
      j := FirstExists(keys, i, from + 1);
    }
  }

  /** Every answer is that of the first request with its key. */
  ghost predicate AnsweredByFirst(keys: seq<UpKey>, right: seq<seq<Node>>, answers: seq<seq<Node>>) {
    |answers| <= |keys| && |right| == |keys|
    && forall i: nat, j: nat | i < |answers| && FirstOfKey(keys, i, j) :: answers[i] == right[j]
  }

  lemma {:induction false} AnswerMore(keys: seq<UpKey>, right: seq<seq<Node>>, answers: seq<seq<Node>>, out: seq<Node>)
    requires |answers| < |keys| && AnsweredByFirst(keys, right, answers)
    requires forall j: nat | FirstOfKey(keys, |answers|, j) :: out == right[j]
    ensures AnsweredByFirst(keys, right, answers + [out])
  {
    var more := answers + [out];
    forall i: nat, j: nat | i < |more| && FirstOfKey(keys, i, j) ensures more[i] == right[j] {
      assert i < |answers| ==> more[i] == answers[i];
    }
  }

  lemma {:induction false} UnknownIsEmpty(t: Topology, queries: Requests, n: nat)
    requires n < |queries|
    ensures forall j: nat | j < n && KeysOf(queries)[j] == KeysOf(queries)[n] && !IsNode(t, queries[n].0) ::
              RightAnswers(t, queries)[j] == []
  {
    forall j: nat | j < n && KeysOf(queries)[j] == KeysOf(queries)[n] ensures queries[j].0 == queries[n].0 {
      assert KeysOf(queries)[j].0 == queries[j].0 && KeysOf(queries)[n].0 == queries[n].0;
    }
  }

  /** On a new graph, requests of any form and with any lists are each answered as the first request of the
      sequence that has the same key: an answer is right exactly when those two have the same answer. */
  method AskUpstreams(g: Graph, queries: Requests) returns (answers: seq<seq<Node>>)
    requires Built(g.topo) && g.caches.upAvoid == map[]
    modifies g.caches
    ensures |answers| == |queries| && AnsweredByFirst(KeysOf(queries), RightAnswers(g.topo, queries), answers)
  {
    answers := [];
    ghost var keys, right := KeysOf(queries), RightAnswers(g.topo, queries);
    for n := 0 to |queries|
      invariant |answers| == n && Remembers(g.caches.upAvoid, g.topo, keys, right, n)
      invariant AnsweredByFirst(keys, right, answers)
    {
      UnknownIsEmpty(g.topo, queries, n);
      var out := AskNext(g, queries[n].0, queries[n].1, keys, right, n);
      AnswerMore(keys, right, answers, out);
      answers := answers + [out];
    }
  }

  method AskNext(g: Graph, id: string, b: Block, ghost keys: seq<UpKey>, ghost right: seq<seq<Node>>, ghost n: nat)
    returns (out: seq<Node>)
    requires Built(g.topo) && Upward(b) && n < |keys| && Remembers(g.caches.upAvoid, g.topo, keys, right, n)
    requires keys[n] == UpstreamKey(id, b) && right[n] == Upstream(g.topo, id, b)
    requires forall j: nat | j < n && keys[j] == keys[n] && !IsNode(g.topo, id) :: right[j] == []
    modifies g.caches
    ensures Remembers(g.caches.upAvoid, g.topo, keys, right, n + 1)
    ensures forall j: nat | FirstOfKey(keys, n, j) :: out == right[j]
  {
    ghost var table := g.caches.upAvoid;
    ghost var first := FirstExists(keys, n, 0);
    out := g.UpstreamThroughTable(id, b);
    RememberNext(table, g.topo, keys, right, n, first);
    if IsNode(g.topo, id) {
      AnswerOfFirst(table, g.topo, keys, right, n, first);
    }
  }

  /** The wrong answer: on the two-node graph the second request is answered as the first. */
  lemma {:induction false} SecondIsWrong(t: Topology, queries: Requests, answers: seq<seq<Node>>)
    requires TwoNodes(t) && queries == [("x", ANY_KIND), ("x", NO_KIND)] && |answers| == 2
    requires AnsweredByFirst(KeysOf(queries), RightAnswers(t, queries), answers)
    ensures answers[0] == Upstream(t, "x", ANY_KIND) && answers[1] != Upstream(t, "x", NO_KIND)
  {
    var keys := KeysOf(queries);
    EmptyElementCollides(t);
    assert queries[0] == ("x", ANY_KIND) && queries[1] == ("x", NO_KIND);
    assert FirstOfKey(keys, 0, 0) && FirstOfKey(keys, 1, 0);
  }
}
