/** The architecture object whose sidecar and node sources the server updates in place
    (model/provenance.go). Each method is proved to do what the functions and relations of the modules
    above say; what those mean is proved there. */
module Architectures {
  import opened Options
  import opened Json
  import opened Pointers
  import opened Sidecar
  import opened Compact
  import opened Fold
  import opened Changes
  import opened Stamping
  import opened Imports

  lemma DeepestExists(keys: set<Pointer>)
    requires keys != {}
    ensures exists k :: k in keys && forall q | q in keys :: |q| <= |k|
    decreases keys
  {
    var x :| x in keys;
    if keys - {x} != {} {
      DeepestExists(keys - {x});
      var k :| k in keys - {x} && forall q | q in keys - {x} :: |q| <= |k|;
      var top := if |x| > |k| then x else k;
      assert top in keys && forall q | q in keys :: |q| <= |top|;
    } else {
      assert keys == {x};
      assert x in keys && forall q | q in keys :: |q| <= |x|;
    }
  }

  /** The keys of a sidecar, deepest first. */
  method InDepthOrder(keys: set<Pointer>) returns (order: seq<Pointer>)
    ensures DeepestFirst(order, keys)
  {
    order := [];
    var todo := keys;
    while todo != {}
      invariant todo <= keys
      invariant forall k :: k in order <==> k in keys && k !in todo
      invariant forall i | 0 <= i < |order| :: order[i] in keys
      invariant forall i, j | 0 <= i < j < |order| :: order[i] != order[j] && |order[i]| >= |order[j]|
      invariant forall k, q | k in order && q in todo :: |k| >= |q|
      decreases todo
    {
      DeepestExists(todo);
      var k :| k in todo && forall q | q in todo :: |q| <= |k|;
      order := order + [k];
      todo := todo - {k};
    }
    assert todo == {};
  }

  class Architecture {
    var provenance: Provenance
    var nodes: seq<Element>
    var edges: seq<Element>
    var groups: seq<Element>
    var identities: seq<Element>
    var attrs: Members

    constructor (m: Model)
      ensures View() == m
    {
      provenance, nodes, edges, groups, identities, attrs := m.prov, m.nodes, m.edges, m.groups, m.identities, m.attrs;
    }

    /** The value of the object. */
    function View(): Model
      reads this
    {
      Model(provenance, nodes, edges, groups, identities, attrs)
    }

    /** The stored entry of the most specific key at or above p, and that key. */
    method StoredEntry(p: Pointer) returns (e: Option<Entry>, key: Pointer)
      ensures e == Claim(provenance, p)
      ensures e.Some? ==> Governor(provenance.Keys, p) == Some(key)
    {
      e, key := None, [];
      var n := |p|;
      assert p[..n] == p;
      while n > 0
        invariant n <= |p|
        invariant Governor(provenance.Keys, p) == Governor(provenance.Keys, p[..n])
      {
        var k := p[..n];
        if k in provenance {
          return Some(provenance[k]), k;
        }
        assert Parent(k) == p[..n - 1];
        n := n - 1;
      }
    }

    method PruneUnresolved()
      modifies this`provenance
      ensures provenance == Pruned(old(View()))
    {
      var todo := provenance.Keys;
      while todo != {}
        invariant todo <= old(provenance).Keys
        invariant provenance == map k | k in old(provenance) && (k in todo || Resolves(old(View()), k)) :: old(provenance)[k]
        decreases todo
      {
        var k :| k in todo;
        todo := todo - {k};
        ResolutionIgnoresSidecar(old(View()), provenance, k);
        if !Resolves(View(), k) {
          provenance := provenance - {k};
        }
      }
    }

    /** Removes every stored key strictly below the pointer. */
    method DropUnder(p: Pointer)
      modifies this`provenance
      ensures provenance == map k | k in old(provenance) && !(p <= k && k != p) :: old(provenance)[k]
    {
      var todo := provenance.Keys;
      while todo != {}
        invariant todo <= old(provenance).Keys
        invariant provenance == map k | k in old(provenance) && (k in todo || !(p <= k && k != p)) :: old(provenance)[k]
        decreases todo
      {
        var k :| k in todo;
        todo := todo - {k};
        if k != p && p <= k {
          provenance := provenance - {k};
        }
      }
    }

    method MaterializeProvenance(sources: Sources)
      modifies this`provenance
      ensures provenance == Materialized(old(provenance), nodes, sources)
    {
      for i := 0 to |nodes|
        invariant provenance == MaterializedUpTo(old(provenance), nodes, sources, i)
      {
        var n := nodes[i];
        if !IsNote(n) && NodePointer(n.id) !in provenance {
          provenance := provenance[NodePointer(n.id) := UpgradeEntry(n, SourceBefore(n, sources))];
        }
      }
    }

    method SyncSources()
      modifies this`nodes
      ensures View() == Synced(old(View()))
    {
      for i := 0 to |nodes|
        invariant |nodes| == |old(nodes)|
        invariant forall j | 0 <= j < |nodes| :: nodes[j] == if j < i then SyncNode(provenance, old(nodes)[j]) else old(nodes)[j]
      {
        var n := nodes[i];
        if NodePointer(n.id) in provenance {
          nodes := nodes[i := n.(members := n.members["source" := Str(KindToSource(provenance[NodePointer(n.id)].kind))])];
        }
      }
      assert nodes == SyncNodes(provenance, old(nodes));
    }

    /** compactProvenance: first the redundant keys, then, while over the limit, the fold. */
    method CompactProvenance(limit: nat)
      modifies this`provenance
      ensures Compacted(old(View()), limit, provenance)
    {
      if |provenance| < 2 {
        return;
      }
      ghost var m := View();
      var order := InDepthOrder(provenance.Keys);
      Squeeze(order);
      ghost var squeezed := provenance;
      Shrink(order, limit);
      ShrunkIsCompacted(m, limit, squeezed, order);
    }

    /** A key that repeats the claim governing it from above goes, leaving its later date there. */
    method FoldIntoParent(k: Pointer)
      modifies this`provenance
      ensures provenance == SqueezeStep(old(provenance), k)
    {
      if k !in provenance || |k| < 2 {
        return;
      }
      var e := provenance[k];
      var parent, pk := StoredEntry(Parent(k));
      if parent.None? || !SameClaim(e, parent.value) {
        return;
      }
      assert provenance[pk := parent.value.(declaredAt := parent.value.declaredAt)] == provenance;
      if CmpTime(e.declaredAt, parent.value.declaredAt) > 0 {
        provenance := provenance[pk := parent.value.(declaredAt := e.declaredAt)];
      }
      provenance := provenance - {k};
    }

    method Squeeze(order: seq<Pointer>)
      requires DeepestFirst(order, provenance.Keys)
      modifies this`provenance
      ensures Squeezed(old(provenance), provenance)
    {
      ghost var before := provenance;
      NothingFolds(before, Taken(order, 0));
      for i := 0 to |order|
        invariant Folded(before, Taken(order, i), provenance)
      {
        SqueezeIteration(order, before, provenance, i);
        FoldIntoParent(order[i]);
      }
      AllTaken(order, before.Keys);
    }

    /** The fold and the removal of the root attribute keys, each only while over the limit. */
    method Shrink(order: seq<Pointer>, limit: nat)
      modifies this`provenance
      ensures provenance == Shrunk(old(View()), limit, order)
    {
      if |provenance| > limit {
        FoldDeep(order);
        if |provenance| > limit {
          DropAttrKeys();
        }
      }
    }

    method FoldDeep(order: seq<Pointer>)
      modifies this`provenance
      ensures provenance == FoldUpTo(old(View()), order, |order|)
    {
      for i := 0 to |order|
        invariant provenance == FoldUpTo(old(View()), order, i)
      {
        var k := order[i];
        if k in provenance && |k| > 2 && k[0] != "attrs" {
          var e, cur := provenance[k], ProvenanceOf(View(), k[..2]);
          if e.kind != cur.kind && Weaker(e.kind, cur.kind) == e.kind {
            cur := e;
          }
          provenance := provenance[k[..2] := cur] - {k};
        }
      }
    }

    method DropAttrKeys()
      modifies this`provenance
      ensures provenance == DropRootAttrs(old(provenance))
    {
      var todo := provenance.Keys;
      while todo != {}
        invariant todo <= old(provenance).Keys
        invariant provenance == map k | k in old(provenance) && (k in todo || !(|k| >= 2 && k[0] == "attrs")) :: old(provenance)[k]
        decreases todo
      {
        var k :| k in todo;
        todo := todo - {k};
        if |k| >= 2 && k[0] == "attrs" {
          provenance := provenance - {k};
        }
      }
    }

    /** Records an accepted import merged into the model (at None: a preview). */
    method MergeImport(src: ImportSource, carried: seq<Pointer>, rewritten: set<Pointer>, actor: string, at: Time, now: int, limit: nat)
      modifies this`provenance, this`nodes
      ensures Accepts(old(View()), carried, rewritten, ImportEntry(src, actor, at, now), limit, View())
    {
      Merge(carried, rewritten, ImportEntry(src, actor, at, now));
      CompactAndSync(limit);
    }

    method Merge(carried: seq<Pointer>, rewritten: set<Pointer>, e: Entry)
      modifies this`provenance
      ensures provenance == Merged(old(provenance), carried, rewritten, e)
    {
      for i := 0 to |carried|
        invariant provenance == MergedUpTo(old(provenance), carried, rewritten, e, i)
      {
        DropRewritten(carried[i], rewritten);
        provenance := provenance[carried[i] := e];
      }
    }

    method CompactAndSync(limit: nat)
      modifies this`provenance, this`nodes
      ensures exists c :: Compacted(old(View()), limit, c) && View() == Synced(old(View()).(prov := c))
    {
      ghost var m := View();
      CompactProvenance(limit);
      ghost var c := provenance;
      assert View() == m.(prov := c);
      SyncSources();
      assert Compacted(m, limit, c) && View() == Synced(m.(prov := c));
    }

    /** Removes the keys strictly below p of the values the import rewrote. */
    method DropRewritten(p: Pointer, rewritten: set<Pointer>)
      modifies this`provenance
      ensures provenance == map k | k in old(provenance) && !(p <= k && k != p && AtOrBelowAny(k, rewritten)) :: old(provenance)[k]
    {
      var todo := provenance.Keys;
      while todo != {}
        invariant todo <= old(provenance).Keys
        invariant provenance == map k | k in old(provenance)
                                  && (k in todo || !(p <= k && k != p && AtOrBelowAny(k, rewritten))) :: old(provenance)[k]
        decreases todo
      {
        var k :| k in todo;
        todo := todo - {k};
        if k != p && p <= k && AtOrBelowAny(k, rewritten) {
          provenance := provenance - {k};
        }
      }
    }

    /** The changed pointers between prev and this model, in the order they are found. */
    method ChangedPointers(prev: Architecture) returns (out: seq<Pointer>)
      ensures (set p | p in out) == Changed(prev.View(), View())
    {
      var roots := DiffAttrs(prev.attrs, attrs, ["attrs"]);
      var inNodes := DiffCollection("nodes", prev.nodes, nodes);
      var inEdges := DiffCollection("edges", prev.edges, edges);
      var inGroups := DiffCollection("groups", prev.groups, groups);
      var inIdentities := DiffCollection("identities", prev.identities, identities);
      out := roots + inNodes + inEdges + inGroups + inIdentities;
      SetOfAppend(roots, inNodes);
      SetOfAppend(roots + inNodes, inEdges);
      SetOfAppend(roots + inNodes + inEdges, inGroups);
      SetOfAppend(roots + inNodes + inEdges + inGroups, inIdentities);
      ChangedParts(prev.View(), View());
    }

    static method DiffAttrs(prev: Members, next: Members, base: Pointer) returns (out: seq<Pointer>)
      ensures (set p | p in out) == ChangedAttrs(prev, next, base)
    {
      out := [];
      var todo := next.Keys;
      while todo != {}
        invariant todo <= next.Keys
        invariant forall p :: p in out <==> exists k :: k in next && k !in todo && AttrChanged(prev, next, k) && p == base + [k]
        decreases todo
      {
        var k :| k in todo;
        todo := todo - {k};
        if AttrChanged(prev, next, k) {
          out := out + [base + [k]];
        }
      }
    }

    static method DiffMembers(prev: Members, next: Members, base: Pointer) returns (out: seq<Pointer>)
      ensures (set p | p in out) == ChangedMembers(prev, next, base)
    {
      out := [];
      var todo := next.Keys;
      while todo != {}
        invariant todo <= next.Keys
        invariant forall p :: p in out <==> exists k :: k in next && k !in todo && FieldChanged(prev, next, k) && p == base + [k]
        decreases todo
      {
        var k :| k in todo;
        todo := todo - {k};
        if FieldChanged(prev, next, k) {
          out := out + [base + [k]];
        }
      }
      assert (set p | p in out) == set k | k in next && FieldChanged(prev, next, k) :: base + [k];
      var attrChanges := DiffAttrs(ObjectAt(prev, "attrs"), ObjectAt(next, "attrs"), base + ["attrs"]);
      out := out + attrChanges;
    }

    static method DiffCollection(name: string, prevs: seq<Element>, nexts: seq<Element>) returns (out: seq<Pointer>)
      ensures (set p | p in out) == ChangedIn(name, prevs, nexts)
    {
      out := [];
      for i := 0 to |nexts|
        invariant forall p :: p in out <==> exists j :: 0 <= j < i && p in ChangedElement(prevs, nexts[j], name)
      {
        var n := nexts[i];
        var was := Find(prevs, n.id);
        var found := [[name, n.id]];
        if was.Some? {
          found := DiffMembers(was.value.members, n.members, [name, n.id]);
        }
        assert forall p :: p in found <==> p in ChangedElement(prevs, n, name) by {
          assert (set p | p in found) == ChangedElement(prevs, n, name);
        }
        out := out + found;
      }
    }

    /** touchesNonDeclared. */
    method NeedsSidecar(prev: Architecture, changed: seq<Pointer>) returns (needed: bool)
      requires (set p | p in changed) == Changed(prev.View(), View())
      ensures needed <==> TouchesNonDeclared(prev.View(), View())
    {
      var altered := SomeNotDeclared(prev, changed);
      var edited := SomeSourceEdited(prev);
      assert forall p :: p in Changed(prev.View(), View()) <==> p in (set q | q in changed);
      return altered || edited;
    }

    static method SomeNotDeclared(prev: Architecture, changed: seq<Pointer>) returns (found: bool)
      ensures found <==> exists p :: p in changed && KindOf(prev.View(), p) != Declared
    {
      for i := 0 to |changed|
        invariant forall j | 0 <= j < i :: KindOf(prev.View(), changed[j]) == Declared
      {
        if KindOf(prev.View(), changed[i]) != Declared {
          return true;
        }
      }
      return false;
    }

    method SomeSourceEdited(prev: Architecture) returns (found: bool)
      ensures found <==> exists n :: n in nodes
                           && SourceToKind(SourceOf(n)) != SourceToKind(PreviousSource(prev.View(), n.id))
    {
      for i := 0 to |nodes|
        invariant forall j | 0 <= j < i ::
                    SourceToKind(SourceOf(nodes[j])) == SourceToKind(PreviousSource(prev.View(), nodes[j].id))
      {
        var was := Find(prev.nodes, nodes[i].id);
        if SourceToKind(SourceOf(nodes[i])) != SourceToKind(if was.Some? then SourceOf(was.value) else "design") {
          return true;
        }
      }
      return false;
    }

    /** Resets what an accepted patch changed; prev is the model it was applied to. */
    method StampPatch(prev: Architecture, actor: string, at: int, limit: nat)
      requires prev != this && prev.View().Unique() && View().Unique()
      modifies this`provenance, this`nodes
      ensures Stamped(prev.View(), old(View()), actor, at, limit, View())
    {
      var changed := ChangedPointers(prev);
      var needed := NeedsSidecar(prev, changed);
      if |provenance| == 0 && !needed {
        provenance := map[];
        return;
      }
      Rewrite(prev, changed, actor, at);
      CompactAndSync(limit);
    }

    /** Prunes, materialises with the previous sources and marks the changed pointers. */
    method Rewrite(prev: Architecture, changed: seq<Pointer>, actor: string, at: int)
      requires prev != this && prev.View().Unique() && View().Unique()
      requires (set p | p in changed) == Changed(prev.View(), View())
      modifies this`provenance
      ensures provenance == Rewritten(prev.View(), old(View()), actor, at)
    {
      ghost var next := View();
      PruneUnresolved();
      MaterializeProvenance(Some(SourcesOf(prev.nodes)));
      Mark(changed, DeclaredBy(actor, at), prev.View(), next);
    }

    /** Writes the entry at every changed pointer and drops what lies below. */
    method Mark(changed: seq<Pointer>, e: Entry, ghost prev: Model, ghost next: Model)
      requires prev.Unique() && next.Unique() && (set p | p in changed) == Changed(prev, next)
      modifies this`provenance
      ensures provenance == Marked(old(provenance), Changed(prev, next), e)
    {
      assert Taken(changed, 0) == {};
      for i := 0 to |changed|
        invariant provenance == Marked(old(provenance), Taken(changed, i), e)
      {
        MarkIteration(old(provenance), changed, i, e, prev, next);
        DropUnder(changed[i]);
        provenance := provenance[changed[i] := e];
      }
      assert changed[..|changed|] == changed;
    }

    /** For every identifier, the value of its latest recorded import. */
    method LatestImports() returns (latest: map<string, string>)
      ensures IsLatestImports(provenance, latest)
    {
      var best: map<string, Pointer> := map[];
      var todo := provenance.Keys;
      while todo != {}
        invariant todo <= provenance.Keys
        invariant BestSoFar(provenance, todo, best)
        decreases todo
      {
        var k :| k in todo;
        var e := provenance[k];
        BestStep(provenance, todo, best, k);
        if Records(e) && (e.identifier !in best || Newer(e, provenance[best[e.identifier]])) {
          best := best[e.identifier := k];
        }
        todo := todo - {k};
      }
      latest := map id | id in best :: provenance[best[id]].lastSeenImport;
      forall id | id in latest ensures LatestAt(provenance, id, best[id]) {}
    }

    /** The nodes and edges of an identifier that its latest import left behind. */
    method DriftedElements(identifier: string) returns (out: set<Pointer>, ghost latest: map<string, string>)
      ensures IsLatestImports(provenance, latest)
      ensures out == Drifted(provenance, latest, identifier)
    {
      var l := LatestImports();
      latest := l;
      out := {};
      var todo := provenance.Keys;
      while todo != {}
        invariant todo <= provenance.Keys
        invariant out == set k | k in provenance && k !in todo && DriftedKey(provenance, l, identifier, k)
        decreases todo
      {
        var k :| k in todo;
        todo := todo - {k};
        if provenance[k].identifier == identifier && DriftedAgainst(l, provenance[k]) && NodeOrEdge(k) {
          out := out + {k};
        }
      }
    }

    /** Drops provenance the server did not write; returns how many entries and sources went. */
    method DistrustProvenance() returns (entries: nat, sources: nat)
      modifies this`provenance, this`nodes
      ensures View() == Distrusted(old(View()))
      ensures entries == |old(provenance)|
      ensures sources == CountAbove(old(nodes), |old(nodes)|)
    {
      entries, sources := |provenance|, 0;
      provenance := map[];
      for i := 0 to |nodes|
        invariant provenance == map[] && |nodes| == |old(nodes)|
        invariant forall j | 0 <= j < |nodes| :: nodes[j] == if j < i then DistrustNode(old(nodes)[j]) else old(nodes)[j]
        invariant sources == CountAbove(old(nodes), i)
      {
        var n := nodes[i];
        if SourceOf(n) != "" && SourceOf(n) != "design" {
          nodes := nodes[i := n.(members := n.members["source" := Str("design")])];
          sources := sources + 1;
        }
      }
      assert nodes == DistrustNodes(old(nodes));
    }
  }

  lemma {:induction false} ShrunkIsCompacted(m: Model, limit: nat, squeezed: Provenance, order: seq<Pointer>)
    requires |m.prov| >= 2 && Squeezed(m.prov, squeezed) && DeepestFirst(order, m.prov.Keys)
    ensures Compacted(m, limit, Shrunk(m.(prov := squeezed), limit, order))
  {
    assert CompactedVia(m, limit, Shrunk(m.(prov := squeezed), limit, order), squeezed, order);
  }

  /** The changed pointers, collection by collection. */
  lemma {:induction false} ChangedParts(x: Model, y: Model)
    ensures Changed(x, y) == ChangedAttrs(x.attrs, y.attrs, ["attrs"])
                             + ChangedIn("nodes", x.nodes, y.nodes) + ChangedIn("edges", x.edges, y.edges)
                             + ChangedIn("groups", x.groups, y.groups)
                             + ChangedIn("identities", x.identities, y.identities)
  {
    forall p ensures p in Changed(x, y) <==> p in ChangedAttrs(x.attrs, y.attrs, ["attrs"]) || ChangedSomewhere(x, y, p) {
      ChangedAt(x, y, p);
    }
    SixSets(Changed(x, y), ChangedAttrs(x.attrs, y.attrs, ["attrs"]), ChangedIn("nodes", x.nodes, y.nodes),
            ChangedIn("edges", x.edges, y.edges), ChangedIn("groups", x.groups, y.groups),
            ChangedIn("identities", x.identities, y.identities));
  }

  lemma SixSets(all: set<Pointer>, a: set<Pointer>, b: set<Pointer>, c: set<Pointer>, d: set<Pointer>, e: set<Pointer>)
    requires forall p :: p in all <==> p in a || (p in b || p in c || p in d || p in e)
    ensures all == a + b + c + d + e
  {}

  predicate ChangedSomewhere(x: Model, y: Model, p: Pointer) {
    p in ChangedIn("nodes", x.nodes, y.nodes) || p in ChangedIn("edges", x.edges, y.edges)
    || p in ChangedIn("groups", x.groups, y.groups) || p in ChangedIn("identities", x.identities, y.identities)
  }

  lemma CollectionsAre(m: Model)
    ensures m.Collection("nodes") == m.nodes && m.Collection("edges") == m.edges
    ensures m.Collection("groups") == m.groups && m.Collection("identities") == m.identities
  {}

  lemma {:induction false} ChangedAt(x: Model, y: Model, p: Pointer)
    ensures p in Changed(x, y) <==> p in ChangedAttrs(x.attrs, y.attrs, ["attrs"]) || ChangedSomewhere(x, y, p)
  {
    CollectionsAre(x);
    CollectionsAre(y);
    assert forall name :: name in COLLECTIONS <==> name == "nodes" || name == "edges" || name == "groups" || name == "identities";
    if name :| name in COLLECTIONS && p in ChangedIn(name, x.Collection(name), y.Collection(name)) {
      assert ChangedSomewhere(x, y, p);
    }
  }

  /** The first n keys of an order. */
  function Taken(order: seq<Pointer>, n: nat): set<Pointer>
    requires n <= |order|
  {
    set k | k in order[..n]
  }

  lemma {:induction false} AllTaken(order: seq<Pointer>, keys: set<Pointer>)
    requires DeepestFirst(order, keys)
    ensures Taken(order, |order|) == keys
  {
    assert order[..|order|] == order;
  }

  lemma {:induction false} DeepSoFar(order: seq<Pointer>, keys: set<Pointer>, i: nat)
    requires DeepestFirst(order, keys) && i < |order|
    ensures order[i] in keys && order[i] !in Taken(order, i) && DeepDone(Taken(order, i), order[i])
    ensures Taken(order, i + 1) == Taken(order, i) + {order[i]}
  {
    assert order[..i + 1] == order[..i] + [order[i]];
  }

  lemma {:induction false} SqueezeIteration(order: seq<Pointer>, before: Provenance, cur: Provenance, i: nat)
    requires DeepestFirst(order, before.Keys) && i < |order| && Folded(before, Taken(order, i), cur)
    ensures Folded(before, Taken(order, i + 1), SqueezeStep(cur, order[i]))
  {
    DeepSoFar(order, before.Keys, i);
    StepFolds(before, Taken(order, i), cur, order[i]);
  }

  lemma SetOfAppend(a: seq<Pointer>, b: seq<Pointer>)
    ensures (set p | p in a + b) == (set p | p in a) + (set p | p in b)
  {}

  /** Marking one more of the changed pointers is dropping what lies below it and writing its entry. */
  lemma {:induction false} MarkIteration(prov: Provenance, changed: seq<Pointer>, i: nat, e: Entry, prev: Model, next: Model)
    requires prev.Unique() && next.Unique() && (set p | p in changed) == Changed(prev, next) && i < |changed|
    ensures MarkOne(Marked(prov, Taken(changed, i), e), changed[i], e) == Marked(prov, Taken(changed, i + 1), e)
  {
    var p := changed[i];
    assert changed[..i + 1] == changed[..i] + [p];
    assert Taken(changed, i + 1) == Taken(changed, i) + {p};
    forall q | q in changed ensures q in Changed(prev, next) {
      assert q in set r | r in changed;
    }
    forall c | c in Taken(changed, i) && (c <= p || p <= c) ensures c == p {
      if c <= p {
        ChangedAntichain(prev, next, c, p);
      } else {
        ChangedAntichain(prev, next, p, c);
      }
    }
    MarkStep(prov, Taken(changed, i), p, e);
  }

  function MarkOne(cur: Provenance, p: Pointer, e: Entry): Provenance {
    (map k | k in cur && !(p <= k && k != p) :: cur[k])[p := e]
  }

  lemma {:induction false} MarkStep(prov: Provenance, done: set<Pointer>, p: Pointer, e: Entry)
    requires forall c | c in done && (c <= p || p <= c) :: c == p
    ensures MarkOne(Marked(prov, done, e), p, e) == Marked(prov, done + {p}, e)
  {
    forall k ensures k in MarkOne(Marked(prov, done, e), p, e) <==> k in Marked(prov, done + {p}, e) {
      BelowOneMore(k, done, p);
    }
  }

  lemma {:induction false} BelowOneMore(k: Pointer, done: set<Pointer>, p: Pointer)
    ensures AtOrBelowAny(k, done + {p}) <==> AtOrBelowAny(k, done) || p <= k
  {
    if AtOrBelowAny(k, done) {
      var c :| c in done && c <= k;
      assert c in done + {p};
    }
    assert p in done + {p};
  }

  /** Among the keys already read: every recorded identifier has a key, and none is newer than it. */
  predicate BestSoFar(prov: Provenance, todo: set<Pointer>, best: map<string, Pointer>) {
    (forall k | k in prov && k !in todo && Records(prov[k]) :: prov[k].identifier in best)
    && forall id | id in best :: best[id] in prov && best[id] !in todo && BestFor(prov, todo, id, best[id])
  }

  predicate BestFor(prov: Provenance, todo: set<Pointer>, id: string, b: Pointer)
    requires b in prov
  {
    Records(prov[b]) && prov[b].identifier == id
    && forall k | k in prov && k !in todo && Records(prov[k]) && prov[k].identifier == id :: !Newer(prov[k], prov[b])
  }

  /** One more key read. */
  lemma {:induction false} BestStep(prov: Provenance, todo: set<Pointer>, best: map<string, Pointer>, k: Pointer)
    requires BestSoFar(prov, todo, best) && k in todo && k in prov
    ensures BestSoFar(prov, todo - {k},
                      if Records(prov[k]) && (prov[k].identifier !in best || Newer(prov[k], prov[best[prov[k].identifier]]))
                      then best[prov[k].identifier := k] else best)
  {
    var next := if Records(prov[k]) && (prov[k].identifier !in best || Newer(prov[k], prov[best[prov[k].identifier]]))
                then best[prov[k].identifier := k] else best;
    forall id | id in next
      ensures next[id] in prov && next[id] !in todo - {k} && BestFor(prov, todo - {k}, id, next[id])
    {
      if next[id] == k && (id !in best || best[id] != k) {
        NewestSoFar(prov, k, best, todo);
      } else {
        assert BestFor(prov, todo, id, best[id]);
      }
    }
  }

  /** A newer import is newest among those already read. */
  lemma {:induction false} NewestSoFar(prov: Provenance, k: Pointer, best: map<string, Pointer>, todo: set<Pointer>)
    requires BestSoFar(prov, todo, best) && k in todo && k in prov && Records(prov[k])
    requires prov[k].identifier !in best || Newer(prov[k], prov[best[prov[k].identifier]])
    ensures BestFor(prov, todo - {k}, prov[k].identifier, k)
  {
    forall j | j in prov && j !in todo - {k} && Records(prov[j]) && prov[j].identifier == prov[k].identifier
      ensures !Newer(prov[j], prov[k])
    {
      NewerOrder(prov[k], prov[k], prov[k]);
      if j != k {
        assert BestFor(prov, todo, prov[k].identifier, best[prov[k].identifier]);
        var b := prov[best[prov[k].identifier]];
        NewerOrder(b, prov[k], b);
        NewerOrder(prov[j], b, prov[k]);
      }
    }
  }
}
