/** StampPatch (model/provenance.go): the rewrite of the sidecar after an accepted patch, and what it
    guarantees about every pointer of the patched model. */
module Stamping {
  import opened Options
  import opened Json
  import opened Pointers
  import opened Sidecar
  import opened Fold
  import opened Changes

  // ---- the steps, as functions of the model ------------------------------------------------------

  /** pruneUnresolved: the keys that no longer resolve go. */
  function Pruned(m: Model): Provenance {
    map k | k in m.prov && Resolves(m, k) :: m.prov[k]
  }

  /** The source each node had before the change, or None for the nodes' current sources. */
  type Sources = Option<map<string, string>>

  function Ids(elements: seq<Element>): set<string> {
    set e | e in elements :: e.id
  }

  lemma {:induction false} FindKnown(elements: seq<Element>, id: string)
    ensures id in Ids(elements) <==> Find(elements, id).Some?
  {}

  function SourcesOf(nodes: seq<Element>): map<string, string> {
    map id | id in Ids(nodes) :: (FindKnown(nodes, id); SourceOf(Find(nodes, id).value))
  }

  function SourceBefore(n: Element, sources: Sources): string {
    if sources.None? then SourceOf(n)
    else if n.id in sources.value then sources.value[n.id]
    else "design"
  }

  /** MaterializeProvenance over the first n nodes: the upgrade mapping of every node but notes that
      has no element-level entry. */
  function MaterializedUpTo(prov: Provenance, nodes: seq<Element>, sources: Sources, n: nat): Provenance
    requires n <= |nodes|
  {
    if n == 0 then prov
    else
      var before := MaterializedUpTo(prov, nodes, sources, n - 1);
      var node := nodes[n - 1];
      if IsNote(node) || NodePointer(node.id) in before then before
      else before[NodePointer(node.id) := UpgradeEntry(node, SourceBefore(node, sources))]
  }

  function Materialized(prov: Provenance, nodes: seq<Element>, sources: Sources): Provenance {
    MaterializedUpTo(prov, nodes, sources, |nodes|)
  }

  predicate AtOrBelowAny(k: Pointer, tops: set<Pointer>) {
    exists c :: c in tops && c <= k
  }

  /** Every changed pointer is reset to the entry and what was stored below it goes. */
  function Marked(prov: Provenance, changed: set<Pointer>, e: Entry): Provenance {
    map k | k in prov.Keys + changed && (k in changed || !AtOrBelowAny(k, changed)) ::
      if k in changed then e else prov[k]
  }

  function SyncNode(prov: Provenance, n: Element): Element {
    if NodePointer(n.id) in prov then
      n.(members := n.members["source" := Str(KindToSource(prov[NodePointer(n.id)].kind))])
    else n
  }

  function SyncNodes(prov: Provenance, nodes: seq<Element>): (r: seq<Element>)
    ensures |r| == |nodes| && forall i | 0 <= i < |nodes| :: r[i] == SyncNode(prov, nodes[i])
  {
    seq(|nodes|, i requires 0 <= i < |nodes| => SyncNode(prov, nodes[i]))
  }

  /** SyncSources: each node's source is written from its element-level entry. */
  function Synced(m: Model): Model {
    m.(nodes := SyncNodes(m.prov, m.nodes))
  }

  const SECOND := 1_000_000_000

  function DeclaredBy(actor: string, at: int): Entry {
    Plain(Declared, "").(declaredBy := actor, declaredAt := Some(at - at % SECOND))
  }

  /** A change on a model without a sidecar needs one. */
  predicate TouchesNonDeclared(prev: Model, next: Model) {
    (exists p :: p in Changed(prev, next) && KindOf(prev, p) != Declared)
    || exists n :: n in next.nodes && SourceToKind(SourceOf(n)) != SourceToKind(PreviousSource(prev, n.id))
  }

  function PreviousSource(prev: Model, id: string): string {
    var n := Find(prev.nodes, id);
    if n.Some? then SourceOf(n.value) else "design"
  }

  /** The sidecar before compaction: pruned, materialised with the previous sources, then marked. */
  function Rewritten(prev: Model, next: Model, actor: string, at: int): Provenance {
    Marked(Materialized(Pruned(next), next.nodes, Some(SourcesOf(prev.nodes))), Changed(prev, next), DeclaredBy(actor, at))
  }

  predicate StaysBare(prev: Model, next: Model) {
    |next.prov| == 0 && !TouchesNonDeclared(prev, next)
  }

  /** What StampPatch may leave of the patched model. */
  ghost predicate Stamped(prev: Model, next: Model, actor: string, at: int, limit: nat, after: Model) {
    if StaysBare(prev, next) then after == next.(prov := map[])
    else
      var m := next.(prov := Rewritten(prev, next, actor, at));
      exists c :: Compacted(m, limit, c) && after == Synced(m.(prov := c))
  }

  /** Apply keeps the sidecar of the model it patches, minus the keys of removed values. */
  ghost predicate KeepsSidecar(prev: Model, next: Model) {
    forall k | Resolves(next, k) ::
      (k in next.prov <==> k in prev.prov) && (k in prev.prov ==> next.prov[k] == prev.prov[k])
  }

  /** An accepted patch: both models are valid (unique ids, every key resolves before) and the patch
      left the sidecar alone. */
  ghost predicate Accepted(prev: Model, next: Model) {
    prev.Unique() && next.Unique() && AllResolve(prev) && KeepsSidecar(prev, next)
  }

  // ---- what each step does to claims -------------------------------------------------------------

  /** A pointer that resolves in the patched model keeps its stored claim through pruning. */
  lemma {:induction false} PruneKeepsClaim(prev: Model, next: Model, p: Pointer)
    requires Accepted(prev, next) && Resolves(next, p)
    ensures Claim(Pruned(next), p) == Claim(prev.prov, p)
  {
    var after := Pruned(next);
    forall n | 0 < n <= |p| ensures p[..n] in after.Keys <==> p[..n] in prev.prov.Keys {
      if n >= 2 {
        ResolvesPrefix(next, p, n);
      }
    }
    GovernorLocal(after.Keys, prev.prov.Keys, p);
  }

  lemma {:induction false} MaterializedAt(prov: Provenance, nodes: seq<Element>, sources: Sources, n: nat, q: Pointer)
    requires n <= |nodes|
    ensures var r := MaterializedUpTo(prov, nodes, sources, n);
            (q in prov ==> q in r && r[q] == prov[q])
            && (q in r && q !in prov ==>
                  exists i :: 0 <= i < n && !IsNote(nodes[i]) && q == NodePointer(nodes[i].id)
                              && r[q] == UpgradeEntry(nodes[i], SourceBefore(nodes[i], sources)))
            && forall i | 0 <= i < n && !IsNote(nodes[i]) :: NodePointer(nodes[i].id) in r
  {
    if n > 0 {
      MaterializedAt(prov, nodes, sources, n - 1, q);
    }
  }

  /** Materialising adds claims only where none was stored: a node's own upgrade. */
  lemma {:induction false} MaterializeClaim(prov: Provenance, nodes: seq<Element>, sources: Sources, p: Pointer)
    requires UniqueIds(nodes) && ["nodes"] !in prov
    ensures Claim(prov, p).Some? ==> Claim(Materialized(prov, nodes, sources), p) == Claim(prov, p)
    ensures Claim(prov, p).None? ==>
              Claim(Materialized(prov, nodes, sources), p)
              == if |p| >= 2 && p[0] == "nodes" && Find(nodes, p[1]).Some? && !IsNote(Find(nodes, p[1]).value)
                 then Some(UpgradeEntry(Find(nodes, p[1]).value, SourceBefore(Find(nodes, p[1]).value, sources)))
                 else None
    decreases |p|
  {
    var r := Materialized(prov, nodes, sources);
    if p != [] {
      MaterializedAt(prov, nodes, sources, |nodes|, p);
      if p in r && p !in prov {
        var i :| 0 <= i < |nodes| && !IsNote(nodes[i]) && p == NodePointer(nodes[i].id)
                 && r[p] == UpgradeEntry(nodes[i], SourceBefore(nodes[i], sources));
        FindUnique(nodes, nodes[i]);
        NodeKeyUngoverned(prov, nodes[i].id);
      } else if p !in r {
        MaterializeClaim(prov, nodes, sources, Parent(p));
        if |p| == 2 && p[0] == "nodes" && Find(nodes, p[1]).Some? {
          assert p == NodePointer(p[1]);
          NodeKeyUngoverned(prov, p[1]);
        }
      }
    }
  }

  lemma {:induction false} NodeKeyUngoverned(prov: Provenance, id: string)
    requires ["nodes"] !in prov && NodePointer(id) !in prov
    ensures Governor(prov.Keys, NodePointer(id)) == None
  {
    assert Parent(NodePointer(id)) == ["nodes"];
    assert Parent(["nodes"]) == [];
    assert Governor(prov.Keys, ["nodes"]) == Governor(prov.Keys, []);
  }

  /** Upgrade on write agrees with upgrade on read: materialising with the current sources changes no
      resolved claim of any pointer. */
  lemma {:induction false} MaterializeKeepsMeaning(m: Model, p: Pointer)
    requires m.Unique() && ["nodes"] !in m.prov
    ensures ProvenanceOf(m.(prov := Materialized(m.prov, m.nodes, None)), p) == ProvenanceOf(m, p)
  {
    MaterializeClaim(m.prov, m.nodes, None, p);
    if Derived(m, p) {
      var e := Find(m.edges, p[1]).value;
      MaterializeClaim(m.prov, m.nodes, None, FromOf(e));
      MaterializeClaim(m.prov, m.nodes, None, ToOf(e));
    }
  }

  /** Marking resets exactly the pointers at or below a changed one. */
  lemma {:induction false} MarkedClaim(prov: Provenance, changed: set<Pointer>, e: Entry, p: Pointer)
    requires [] !in changed
    ensures Claim(Marked(prov, changed, e), p) == if AtOrBelowAny(p, changed) then Some(e) else Claim(prov, p)
    decreases |p|
  {
    var r := Marked(prov, changed, e);
    if p == [] {
      assert !AtOrBelowAny(p, changed);
    } else {
      MarkedClaim(prov, changed, e, Parent(p));
      assert AtOrBelowAny(p, changed) <==> p in changed || AtOrBelowAny(Parent(p), changed) by {
        if AtOrBelowAny(Parent(p), changed) {
          var c :| c in changed && c <= Parent(p);
          assert c <= p;
        }
        if AtOrBelowAny(p, changed) && p !in changed {
          var c :| c in changed && c <= p;
          assert c != p && c == p[..|c|];
          assert c <= Parent(p);
        }
      }
    }
  }

  /** Writing the sources back changes no kind: a node with an entry is governed by it. */
  lemma {:induction false} SyncKeepsKinds(m: Model, p: Pointer)
    requires m.Unique()
    ensures KindOf(Synced(m), p) == KindOf(m, p)
  {
    SyncBase(m, p);
    if Derived(m, p) {
      var e := Find(m.edges, p[1]).value;
      SyncBase(m, FromOf(e));
      SyncBase(m, ToOf(e));
    }
  }

  lemma {:induction false} SyncFind(prov: Provenance, nodes: seq<Element>, id: string)
    ensures Find(SyncNodes(prov, nodes), id)
         == if Find(nodes, id).None? then None else Some(SyncNode(prov, Find(nodes, id).value))
  {
    if nodes != [] && nodes[0].id != id {
      SyncFind(prov, nodes[1..], id);
      assert SyncNodes(prov, nodes)[1..] == SyncNodes(prov, nodes[1..]);
    }
  }

  lemma {:induction false} SyncBase(m: Model, p: Pointer)
    ensures BaseProvenance(Synced(m), p) == BaseProvenance(m, p)
  {
    if Claim(m.prov, p).None? && |p| >= 2 && p[0] == "nodes" {
      SyncFind(m.prov, m.nodes, p[1]);
      if NodePointer(p[1]) in m.prov {
        assert NodePointer(p[1]) == p[..2];
        GovernorIsLongest(m.prov.Keys, p);
      }
    }
  }

  lemma {:induction false} SyncResolves(m: Model, q: Pointer)
    ensures Resolves(Synced(m), q) <==> Resolves(m, q)
  {
    if |q| >= 2 && q[0] == "nodes" {
      SyncFind(m.prov, m.nodes, q[1]);
    }
  }

  // ---- what an accepted patch guarantees ---------------------------------------------------------

  /** The sidecar before compaction governs p by the claim it had, its upgrade with the source it had,
      or a fresh declaration. */
  lemma {:induction false} RewrittenClaim(prev: Model, next: Model, actor: string, at: int, p: Pointer)
    requires Accepted(prev, next) && Resolves(next, p)
    ensures var c := Claim(Rewritten(prev, next, actor, at), p);
            if AtOrBelowAny(p, Changed(prev, next)) then c == Some(DeclaredBy(actor, at))
            else if Claim(prev.prov, p).Some? then c == Claim(prev.prov, p)
            else if p[0] == "nodes" && !IsNote(Find(next.nodes, p[1]).value) then
              var n := Find(next.nodes, p[1]).value;
              c == Some(UpgradeEntry(n, SourceBefore(n, Some(SourcesOf(prev.nodes)))))
            else c == None
  {
    assert forall q | q in Changed(prev, next) :: q != [] by {
      forall q | q in Changed(prev, next) ensures q != [] {
        ChangedResolves(prev, next, q);
      }
    }
    PruneKeepsClaim(prev, next, p);
    assert ["nodes"] !in Pruned(next);
    MaterializeClaim(Pruned(next), next.nodes, Some(SourcesOf(prev.nodes)), p);
    MarkedClaim(Materialized(Pruned(next), next.nodes, Some(SourcesOf(prev.nodes))), Changed(prev, next),
                DeclaredBy(actor, at), p);
  }

  /** Every stored key resolves before compaction. */
  lemma {:induction false} RewrittenResolves(prev: Model, next: Model, actor: string, at: int)
    requires prev.Unique() && next.Unique()
    ensures AllResolve(next.(prov := Rewritten(prev, next, actor, at)))
  {
    var sources := Some(SourcesOf(prev.nodes));
    forall k | k in Rewritten(prev, next, actor, at)
      ensures Resolves(next.(prov := Rewritten(prev, next, actor, at)), k)
    {
      ResolutionIgnoresSidecar(next, Rewritten(prev, next, actor, at), k);
      if k in Changed(prev, next) {
        ChangedResolves(prev, next, k);
      } else if k !in Pruned(next) {
        MaterializedAt(Pruned(next), next.nodes, sources, |next.nodes|, k);
        var i :| 0 <= i < |next.nodes| && k == NodePointer(next.nodes[i].id);
        FindUnique(next.nodes, next.nodes[i]);
      }
    }
  }

  /** Compaction and the writing of the sources only weaken what was rewritten. */
  lemma {:induction false} StampWeakens(prev: Model, next: Model, actor: string, at: int, limit: nat, after: Model, p: Pointer)
    requires prev.Unique() && next.Unique()
    requires Stamped(prev, next, actor, at, limit, after) && !StaysBare(prev, next)
    ensures Rank(KindOf(after, p)) <= Rank(KindOf(next.(prov := Rewritten(prev, next, actor, at)), p))
  {
    var m := next.(prov := Rewritten(prev, next, actor, at));
    var c :| Compacted(m, limit, c) && after == Synced(m.(prov := c));
    RewrittenResolves(prev, next, actor, at);
    assert !Resolves(m, ["attrs"]);
    CompactNeverStrengthens(m, limit, c, p);
    SyncKeepsKinds(m.(prov := c), p);
  }

  /** After a patch that leaves a sidecar every key resolves. */
  lemma {:induction false} StampResolves(prev: Model, next: Model, actor: string, at: int, limit: nat, after: Model)
    requires prev.Unique() && next.Unique()
    requires Stamped(prev, next, actor, at, limit, after)
    ensures AllResolve(after)
  {
    if !StaysBare(prev, next) {
      var m := next.(prov := Rewritten(prev, next, actor, at));
      var c :| Compacted(m, limit, c) && after == Synced(m.(prov := c));
      RewrittenResolves(prev, next, actor, at);
      CompactKeepsResolving(m, limit, c);
      forall k | k in after.prov ensures Resolves(after, k) {
        SyncResolves(m.(prov := c), k);
      }
    }
  }

  /** When no sidecar is needed, a pointer that resolves was not governed by a stored key before. */
  lemma {:induction false} BareWasUngoverned(prev: Model, next: Model, p: Pointer)
    requires Accepted(prev, next) && |next.prov| == 0 && Resolves(next, p)
    ensures Claim(prev.prov, p) == None
  {
    PruneKeepsClaim(prev, next, p);
    assert Pruned(next) == map[];
    assert forall q: Pointer :: Governor({}, q) == None by {
      forall q: Pointer ensures Governor({}, q) == None { NothingGoverns(q); }
    }
  }

  lemma {:induction false} NothingGoverns(q: Pointer)
    ensures Governor({}, q) == None
    decreases |q|
  {
    if q != [] {
      NothingGoverns(Parent(q));
    }
  }

  /** Without a sidecar a node resolves to the kind of its previous source, and everything but nodes and
      edges resolves declared. */
  lemma {:induction false} BareKind(prev: Model, next: Model, p: Pointer)
    requires StaysBare(prev, next) && |p| >= 2 && p[0] != "edges"
    ensures KindOf(next.(prov := map[]), p)
         == if p[0] == "nodes" && Find(next.nodes, p[1]).Some? then SourceToKind(PreviousSource(prev, p[1])) else Declared
  {
    NothingGoverns(p);
    if p[0] == "nodes" && Find(next.nodes, p[1]).Some? {
      assert Find(next.nodes, p[1]).value in next.nodes;
    }
  }

  lemma {:induction false} AddedNodeChanges(prev: Model, next: Model, n: Element)
    requires n in next.nodes && Find(prev.nodes, n.id).None?
    ensures NodePointer(n.id) in Changed(prev, next)
  {
    assert NodePointer(n.id) in ChangedElement(prev.nodes, n, "nodes");
    assert NodePointer(n.id) in ChangedIn("nodes", prev.nodes, next.nodes);
    assert next.Collection("nodes") == next.nodes && prev.Collection("nodes") == prev.nodes;
    assert "nodes" in COLLECTIONS;
  }

  /** The previous source decides an ungoverned node, whatever the patch wrote into its source. */
  lemma {:induction false} PreviousSourceDecides(prev: Model, next: Model, n: Element)
    ensures SourceBefore(n, Some(SourcesOf(prev.nodes))) == PreviousSource(prev, n.id)
  {
    FindKnown(prev.nodes, n.id);
  }

  /** No accepted patch raises the kind of a pointer that still resolves at or below a node, not a
      note, present in both models, even when the patch edits the node's source. */
  lemma {:induction false} StampNeverRaises(prev: Model, next: Model, actor: string, at: int, limit: nat, after: Model, p: Pointer)
    requires Accepted(prev, next) && Stamped(prev, next, actor, at, limit, after)
    requires Resolves(next, p) && p[0] == "nodes"
    requires Find(prev.nodes, p[1]).Some? && !IsNote(Find(next.nodes, p[1]).value)
    ensures Rank(KindOf(after, p)) <= Rank(KindOf(prev, p))
  {
    if StaysBare(prev, next) {
      BareWasUngoverned(prev, next, p);
      BareKind(prev, next, p);
    } else {
      StampWeakens(prev, next, actor, at, limit, after, p);
      RewrittenClaim(prev, next, actor, at, p);
      PreviousSourceDecides(prev, next, Find(next.nodes, p[1]).value);
    }
  }

  lemma {:induction false} NodePrefix(p: Pointer)
    requires |p| >= 2 && p[0] == "nodes"
    ensures NodePointer(p[1]) <= p
  {}

  /** Every pointer at or below a node the patch added resolves declared. */
  lemma {:induction false} NewNodeIsDeclared(prev: Model, next: Model, actor: string, at: int, limit: nat, after: Model, p: Pointer)
    requires Accepted(prev, next) && Stamped(prev, next, actor, at, limit, after)
    requires |p| >= 2 && p[0] == "nodes" && Find(next.nodes, p[1]).Some? && Find(prev.nodes, p[1]).None?
    ensures KindOf(after, p) == Declared
  {
    if StaysBare(prev, next) {
      BareNewNode(prev, next, p);
    } else {
      AddedNodeChanges(prev, next, Find(next.nodes, p[1]).value);
      NodePrefix(p);
      MarkedIsDeclared(prev, next, actor, at, limit, after, NodePointer(p[1]), p);
    }
  }

  lemma {:induction false} BareNewNode(prev: Model, next: Model, p: Pointer)
    requires StaysBare(prev, next)
    requires |p| >= 2 && p[0] == "nodes" && Find(next.nodes, p[1]).Some? && Find(prev.nodes, p[1]).None?
    ensures KindOf(next.(prov := map[]), p) == Declared
  {
    BareKind(prev, next, p);
    assert PreviousSource(prev, p[1]) == "design";
  }

  /** At or below a changed pointer everything resolves declared once there is a sidecar. */
  lemma {:induction false} MarkedIsDeclared(prev: Model, next: Model, actor: string, at: int, limit: nat, after: Model,
                                            c: Pointer, p: Pointer)
    requires prev.Unique() && next.Unique() && c in Changed(prev, next) && c <= p
    requires Stamped(prev, next, actor, at, limit, after) && !StaysBare(prev, next)
    ensures KindOf(after, p) == Declared
  {
    StampWeakens(prev, next, actor, at, limit, after, p);
    RewrittenIsDeclared(prev, next, actor, at, c, p);
  }

  lemma {:induction false} RewrittenIsDeclared(prev: Model, next: Model, actor: string, at: int, c: Pointer, p: Pointer)
    requires prev.Unique() && next.Unique() && c in Changed(prev, next) && c <= p
    ensures KindOf(next.(prov := Rewritten(prev, next, actor, at)), p) == Declared
  {
    forall q | q in Changed(prev, next) ensures q != [] {
      ChangedResolves(prev, next, q);
    }
    MarkedClaim(Materialized(Pruned(next), next.nodes, Some(SourcesOf(prev.nodes))), Changed(prev, next),
                DeclaredBy(actor, at), p);
  }

  lemma {:induction false} BareChangeWasDeclared(prev: Model, next: Model, p: Pointer)
    requires Accepted(prev, next) && StaysBare(prev, next)
    requires p != [] && p in Changed(prev, next) && p[0] != "edges"
    ensures KindOf(next.(prov := map[]), p) == Declared
  {
    ChangedResolves(prev, next, p);
    BareWasUngoverned(prev, next, p);
    BareKind(prev, next, p);
    assert KindOf(prev, p) == Declared;
  }

  /** The node an edge names is in both models and no note. */
  predicate SteadyNode(prev: Model, next: Model, id: string) {
    Find(prev.nodes, id).Some? && Find(next.nodes, id).Some? && !IsNote(Find(next.nodes, id).value)
  }

  lemma {:induction false} NodePointerResolves(m: Model, id: string)
    requires Find(m.nodes, id).Some?
    ensures Resolves(m, NodePointer(id))
  {}

  lemma {:induction false} EndpointNeverRaises(prev: Model, next: Model, actor: string, at: int, id: string)
    requires Accepted(prev, next) && SteadyNode(prev, next, id)
    ensures Rank(BaseProvenance(next.(prov := Rewritten(prev, next, actor, at)), NodePointer(id)).kind)
         <= Rank(BaseProvenance(prev, NodePointer(id)).kind)
    ensures StaysBare(prev, next) ==>
              BaseProvenance(next.(prov := map[]), NodePointer(id)).kind == BaseProvenance(prev, NodePointer(id)).kind
  {
    NodePointerResolves(next, id);
    RewrittenClaim(prev, next, actor, at, NodePointer(id));
    PreviousSourceDecides(prev, next, Find(next.nodes, id).value);
    if StaysBare(prev, next) {
      BareWasUngoverned(prev, next, NodePointer(id));
      BareKind(prev, next, NodePointer(id));
    }
  }

  /** p lies at or below an edge present in both models with the same steady endpoints. */
  predicate SteadyEdge(prev: Model, next: Model, p: Pointer) {
    |p| >= 2 && p[0] == "edges" && Find(prev.edges, p[1]).Some? && Find(next.edges, p[1]).Some?
    && var was, now := Find(prev.edges, p[1]).value, Find(next.edges, p[1]).value;
       FromOf(was) == FromOf(now) && ToOf(was) == ToOf(now)
       && SteadyNode(prev, next, FromOf(now)[1]) && SteadyNode(prev, next, ToOf(now)[1])
  }

  lemma {:induction false} DerivedKind(m: Model, p: Pointer)
    requires Derived(m, p)
    ensures var e := Find(m.edges, p[1]).value;
            KindOf(m, p) == Weaker(BaseProvenance(m, FromOf(e)).kind, BaseProvenance(m, ToOf(e)).kind)
  {}

  lemma {:induction false} EdgeRewrittenWeakens(prev: Model, next: Model, actor: string, at: int, p: Pointer)
    requires Accepted(prev, next) && Resolves(next, p) && SteadyEdge(prev, next, p)
    ensures Rank(KindOf(next.(prov := Rewritten(prev, next, actor, at)), p)) <= Rank(KindOf(prev, p))
  {
    var m := next.(prov := Rewritten(prev, next, actor, at));
    RewrittenClaim(prev, next, actor, at, p);
    if Derived(m, p) {
      var now := Find(next.edges, p[1]).value;
      EndpointNeverRaises(prev, next, actor, at, FromOf(now)[1]);
      EndpointNeverRaises(prev, next, actor, at, ToOf(now)[1]);
      DerivedKind(m, p);
      DerivedKind(prev, p);
    }
  }

  lemma {:induction false} EdgeBareKeeps(prev: Model, next: Model, p: Pointer)
    requires Accepted(prev, next) && Resolves(next, p) && SteadyEdge(prev, next, p) && StaysBare(prev, next)
    ensures KindOf(next.(prov := map[]), p) == KindOf(prev, p)
  {
    var now := Find(next.edges, p[1]).value;
    EndpointNeverRaises(prev, next, "", 0, FromOf(now)[1]);
    EndpointNeverRaises(prev, next, "", 0, ToOf(now)[1]);
    BareWasUngoverned(prev, next, p);
    NothingGoverns(p);
    DerivedKind(prev, p);
    DerivedKind(next.(prov := map[]), p);
  }

  /** The same holds at or below an edge that keeps its endpoints while they stay in the model; a
      rewired edge takes the claims of its new endpoints instead. */
  lemma {:induction false} StampNeverRaisesEdge(prev: Model, next: Model, actor: string, at: int, limit: nat, after: Model, p: Pointer)
    requires Accepted(prev, next) && Stamped(prev, next, actor, at, limit, after)
    requires Resolves(next, p) && SteadyEdge(prev, next, p)
    ensures Rank(KindOf(after, p)) <= Rank(KindOf(prev, p))
  {
    if StaysBare(prev, next) {
      EdgeBareKeeps(prev, next, p);
    } else {
      StampWeakens(prev, next, actor, at, limit, after, p);
      EdgeRewrittenWeakens(prev, next, actor, at, p);
    }
  }

  // ---- edges without a sidecar -------------------------------------------------------------------

  /** What an endpoint's previous source reads as. */
  function PreviousKind(prev: Model, next: Model, id: string): Kind {
    if Find(next.nodes, id).Some? then SourceToKind(PreviousSource(prev, id)) else Declared
  }

  /** Both endpoints of the edge read as more than declared, and the result carries no sidecar: the early
      return. */
  predicate LeftDerived(prev: Model, next: Model, p: Pointer) {
    StaysBare(prev, next) && |p| >= 2 && p[0] == "edges" && Find(next.edges, p[1]).Some?
    && var e := Find(next.edges, p[1]).value;
       PreviousKind(prev, next, FromOf(e)[1]) != Declared && PreviousKind(prev, next, ToOf(e)[1]) != Declared
  }

  lemma {:induction false} BareEnd(prev: Model, next: Model, id: string)
    requires StaysBare(prev, next)
    ensures BaseProvenance(next.(prov := map[]), NodePointer(id)).kind
         == PreviousKind(prev, next, id)
  {
    NothingGoverns(NodePointer(id));
    if Find(next.nodes, id).Some? {
      assert Find(next.nodes, id).value in next.nodes;
    }
  }

  /** Without a sidecar an edge takes the weaker of its endpoints' previous sources. */
  lemma {:induction false} BareEdge(prev: Model, next: Model, p: Pointer)
    requires StaysBare(prev, next) && |p| >= 2 && p[0] == "edges" && Find(next.edges, p[1]).Some?
    ensures var e := Find(next.edges, p[1]).value;
            KindOf(next.(prov := map[]), p) == Weaker(PreviousKind(prev, next, FromOf(e)[1]), PreviousKind(prev, next, ToOf(e)[1]))
    ensures KindOf(next.(prov := map[]), p) == Declared <==> !LeftDerived(prev, next, p)
  {
    var e := Find(next.edges, p[1]).value;
    NothingGoverns(p);
    DerivedKind(next.(prov := map[]), p);
    BareEnd(prev, next, FromOf(e)[1]);
    BareEnd(prev, next, ToOf(e)[1]);
  }

  /** A changed pointer resolves declared afterwards exactly when it is not at or below an edge that the
      early return leaves derived from two endpoints above declared. */
  lemma {:induction false} ChangedIsDeclared(prev: Model, next: Model, actor: string, at: int, limit: nat, after: Model, p: Pointer)
    requires Accepted(prev, next) && Stamped(prev, next, actor, at, limit, after)
    requires p in Changed(prev, next)
    ensures KindOf(after, p) == Declared <==> !LeftDerived(prev, next, p)
  {
    ChangedResolves(prev, next, p);
    if !StaysBare(prev, next) {
      MarkedIsDeclared(prev, next, actor, at, limit, after, p, p);
    } else if p[0] == "edges" {
      BareEdge(prev, next, p);
    } else {
      BareChangeWasDeclared(prev, next, p);
    }
  }

  // ---- when a patch raises an edge ---------------------------------------------------------------

  /** The kind an endpoint of an edge has once the patch is stamped, before compaction. */
  function EndKind(prev: Model, next: Model, id: string): Kind {
    var n := Find(next.nodes, id);
    if n.None? || Find(prev.nodes, id).None? then Declared
    else if Claim(prev.prov, NodePointer(id)).Some? then Claim(prev.prov, NodePointer(id)).value.kind
    else if IsNote(n.value) then SourceToKind(SourceOf(n.value))
    else SourceToKind(PreviousSource(prev, id))
  }

  /** The edge has no claim of its own, the patch marked nothing at or above p (or needs no sidecar), and
      its endpoints now are both stronger than p was. */
  predicate Lifts(prev: Model, next: Model, p: Pointer)
    requires |p| >= 2 && Find(next.edges, p[1]).Some?
  {
    var e := Find(next.edges, p[1]).value;
    Claim(prev.prov, p).None? && (StaysBare(prev, next) || !AtOrBelowAny(p, Changed(prev, next)))
    && Rank(EndKind(prev, next, FromOf(e)[1])) > Rank(KindOf(prev, p))
    && Rank(EndKind(prev, next, ToOf(e)[1])) > Rank(KindOf(prev, p))
  }

  lemma {:induction false} RewrittenEnd(prev: Model, next: Model, actor: string, at: int, id: string)
    requires Accepted(prev, next)
    ensures BaseProvenance(next.(prov := Rewritten(prev, next, actor, at)), NodePointer(id)).kind == EndKind(prev, next, id)
  {
    var p := NodePointer(id);
    if Find(next.nodes, id).Some? {
      NodePointerResolves(next, id);
      RewrittenClaim(prev, next, actor, at, p);
      PreviousSourceDecides(prev, next, Find(next.nodes, id).value);
      NodeMarked(prev, next, id);
    } else {
      AbsentUngoverned(prev, next, actor, at, id);
    }
  }

  /** A patch marks a node as a whole exactly when it added it. */
  lemma {:induction false} NodeMarked(prev: Model, next: Model, id: string)
    requires prev.Unique() && next.Unique() && Find(next.nodes, id).Some?
    ensures AtOrBelowAny(NodePointer(id), Changed(prev, next)) <==> Find(prev.nodes, id).None?
  {
    if Find(prev.nodes, id).None? {
      AddedNodeChanges(prev, next, Find(next.nodes, id).value);
    } else {
      forall c | c in Changed(prev, next) ensures !(c <= NodePointer(id)) {
        ChangedResolves(prev, next, c);
        assert |c| == 2 && c <= NodePointer(id) ==> c == NodePointer(id);
      }
    }
  }

  lemma {:induction false} AbsentUngoverned(prev: Model, next: Model, actor: string, at: int, id: string)
    requires prev.Unique() && next.Unique() && Find(next.nodes, id).None?
    ensures Claim(Rewritten(prev, next, actor, at), NodePointer(id)).None?
  {
    var p, m := NodePointer(id), next.(prov := Rewritten(prev, next, actor, at));
    RewrittenResolves(prev, next, actor, at);
    forall n | 0 < n <= |p| ensures p[..n] in m.prov.Keys <==> p[..n] in {} {
      assert n == 2 ==> p[..n] == p;
      assert !Resolves(m, p[..n]);
    }
    GovernorLocal(m.prov.Keys, {}, p);
    NothingGoverns(p);
  }

  lemma {:induction false} BareEndKind(prev: Model, next: Model, id: string)
    requires Accepted(prev, next) && StaysBare(prev, next)
    ensures BaseProvenance(next.(prov := map[]), NodePointer(id)).kind == EndKind(prev, next, id)
  {
    BareEnd(prev, next, id);
    if Find(next.nodes, id).Some? {
      NodePointerResolves(next, id);
      BareWasUngoverned(prev, next, NodePointer(id));
      assert Find(next.nodes, id).value in next.nodes;
    }
  }

  lemma {:induction false} RewrittenEdge(prev: Model, next: Model, actor: string, at: int, p: Pointer)
    requires Accepted(prev, next) && Resolves(next, p) && p[0] == "edges" && !StaysBare(prev, next)
    ensures Rank(KindOf(next.(prov := Rewritten(prev, next, actor, at)), p)) > Rank(KindOf(prev, p)) <==> Lifts(prev, next, p)
  {
    var m, e := next.(prov := Rewritten(prev, next, actor, at)), Find(next.edges, p[1]).value;
    RewrittenClaim(prev, next, actor, at, p);
    if Derived(m, p) {
      DerivedKind(m, p);
      RewrittenEnd(prev, next, actor, at, FromOf(e)[1]);
      RewrittenEnd(prev, next, actor, at, ToOf(e)[1]);
    }
  }

  lemma {:induction false} BareEdgeLifts(prev: Model, next: Model, p: Pointer)
    requires Accepted(prev, next) && Resolves(next, p) && p[0] == "edges" && StaysBare(prev, next)
    ensures Rank(KindOf(next.(prov := map[]), p)) > Rank(KindOf(prev, p)) <==> Lifts(prev, next, p)
  {
    var e := Find(next.edges, p[1]).value;
    BareWasUngoverned(prev, next, p);
    NothingGoverns(p);
    DerivedKind(next.(prov := map[]), p);
    BareEndKind(prev, next, FromOf(e)[1]);
    BareEndKind(prev, next, ToOf(e)[1]);
  }

  /** Below the limit compaction and the writing of the sources keep every kind. */
  lemma {:induction false} StampKeeps(prev: Model, next: Model, actor: string, at: int, limit: nat, after: Model, p: Pointer)
    requires prev.Unique() && next.Unique() && |Rewritten(prev, next, actor, at)| <= limit
    requires Stamped(prev, next, actor, at, limit, after) && !StaysBare(prev, next)
    ensures KindOf(after, p) == KindOf(next.(prov := Rewritten(prev, next, actor, at)), p)
  {
    var m := next.(prov := Rewritten(prev, next, actor, at));
    var c :| Compacted(m, limit, c) && after == Synced(m.(prov := c));
    CompactWithinLimit(m, limit, c, p);
    SyncKeepsKinds(m.(prov := c), p);
  }

  /** Exactly when an accepted patch raises a pointer at or below an edge, whatever it does to the
      endpoints; never one that keeps its steady endpoints. Over the limit compaction may still weaken what
      it raised. */
  lemma {:induction false} StampRaisesEdgeIff(prev: Model, next: Model, actor: string, at: int, limit: nat, after: Model, p: Pointer)
    requires Accepted(prev, next) && Stamped(prev, next, actor, at, limit, after)
    requires Resolves(next, p) && p[0] == "edges"
    ensures Rank(KindOf(after, p)) > Rank(KindOf(prev, p)) ==> Lifts(prev, next, p)
    ensures StaysBare(prev, next) || |Rewritten(prev, next, actor, at)| <= limit ==>
              (Rank(KindOf(after, p)) > Rank(KindOf(prev, p)) <==> Lifts(prev, next, p))
    ensures SteadyEdge(prev, next, p) ==> Rank(KindOf(after, p)) <= Rank(KindOf(prev, p))
  {
    if SteadyEdge(prev, next, p) {
      StampNeverRaisesEdge(prev, next, actor, at, limit, after, p);
    }
    if StaysBare(prev, next) {
      BareEdgeLifts(prev, next, p);
    } else {
      StampWeakens(prev, next, actor, at, limit, after, p);
      RewrittenEdge(prev, next, actor, at, p);
      if |Rewritten(prev, next, actor, at)| <= limit {
        StampKeeps(prev, next, actor, at, limit, after, p);
      }
    }
  }

  // ---- when a patch raises a node ----------------------------------------------------------------

  /** The node is a note without a claim of its own, the patch marked nothing at or above p, and the
      source it wrote into the note reads as more than p was: notes are not materialised. */
  predicate NoteLifts(prev: Model, next: Model, p: Pointer)
    requires |p| >= 2 && Find(next.nodes, p[1]).Some?
  {
    var n := Find(next.nodes, p[1]).value;
    IsNote(n) && Claim(prev.prov, p).None? && !AtOrBelowAny(p, Changed(prev, next))
    && Rank(SourceToKind(SourceOf(n))) > Rank(KindOf(prev, p))
  }

  /** An ungoverned node of a model has the kind its source reads as. */
  lemma {:induction false} UngovernedNode(m: Model, p: Pointer)
    requires |p| >= 2 && p[0] == "nodes" && Claim(m.prov, p).None?
    ensures KindOf(m, p) == if Find(m.nodes, p[1]).Some? then SourceToKind(SourceOf(Find(m.nodes, p[1]).value)) else Declared
  {}

  lemma {:induction false} BareNodeKeeps(prev: Model, next: Model, p: Pointer)
    requires Accepted(prev, next) && Resolves(next, p) && p[0] == "nodes" && StaysBare(prev, next)
    ensures KindOf(next.(prov := map[]), p) == KindOf(prev, p) && !NoteLifts(prev, next, p)
  {
    var n := Find(next.nodes, p[1]).value;
    BareWasUngoverned(prev, next, p);
    BareKind(prev, next, p);
    UngovernedNode(prev, p);
    assert n in next.nodes;
  }

  lemma {:induction false} AddedIsMarked(prev: Model, next: Model, p: Pointer)
    requires |p| >= 2 && p[0] == "nodes" && Find(next.nodes, p[1]).Some? && Find(prev.nodes, p[1]).None?
    ensures AtOrBelowAny(p, Changed(prev, next))
  {
    AddedNodeChanges(prev, next, Find(next.nodes, p[1]).value);
    NodePrefix(p);
  }

  lemma {:induction false} RewrittenNode(prev: Model, next: Model, actor: string, at: int, p: Pointer)
    requires Accepted(prev, next) && Resolves(next, p) && p[0] == "nodes"
    ensures Rank(KindOf(next.(prov := Rewritten(prev, next, actor, at)), p)) > Rank(KindOf(prev, p)) <==> NoteLifts(prev, next, p)
  {
    var m, n := next.(prov := Rewritten(prev, next, actor, at)), Find(next.nodes, p[1]).value;
    RewrittenClaim(prev, next, actor, at, p);
    if Find(prev.nodes, p[1]).None? {
      AddedIsMarked(prev, next, p);
    } else if Claim(prev.prov, p).None? && !AtOrBelowAny(p, Changed(prev, next)) {
      UngovernedNode(prev, p);
      PreviousSourceDecides(prev, next, n);
      if IsNote(n) {
        UngovernedNode(m, p);
      }
    }
  }

  /** Exactly when an accepted patch raises a pointer at or below a node. Over the limit compaction may
      still weaken what it raised. */
  lemma {:induction false} StampRaisesNodeIff(prev: Model, next: Model, actor: string, at: int, limit: nat, after: Model, p: Pointer)
    requires Accepted(prev, next) && Stamped(prev, next, actor, at, limit, after)
    requires Resolves(next, p) && p[0] == "nodes"
    ensures Rank(KindOf(after, p)) > Rank(KindOf(prev, p)) ==> NoteLifts(prev, next, p)
    ensures StaysBare(prev, next) || |Rewritten(prev, next, actor, at)| <= limit ==>
              (Rank(KindOf(after, p)) > Rank(KindOf(prev, p)) <==> NoteLifts(prev, next, p))
  {
    if StaysBare(prev, next) {
      BareNodeKeeps(prev, next, p);
    } else {
      StampWeakens(prev, next, actor, at, limit, after, p);
      RewrittenNode(prev, next, actor, at, p);
      if |Rewritten(prev, next, actor, at)| <= limit {
        StampKeeps(prev, next, actor, at, limit, after, p);
      }
    }
  }

  function NoteModel(source: string): Model {
    Model(map[], [Element("n", map["type" := Str("note"), "source" := Str(source)])], [], [], [], map[])
  }

  lemma {:induction false} NoteUnchanged(source: string, other: string)
    ensures Changed(NoteModel(source), NoteModel(other)) == {}
  {
    var prev, next := NoteModel(source), NoteModel(other);
    var n := next.nodes[0];
    FindUnique(prev.nodes, prev.nodes[0]);
    assert ChangedElement(prev.nodes, n, "nodes") == {};
    forall name | name in COLLECTIONS ensures ChangedIn(name, prev.Collection(name), next.Collection(name)) == {} {}
  }

  lemma {:induction false} NoteTouched()
    ensures !StaysBare(NoteModel("design"), NoteModel("declared"))
    ensures Accepted(NoteModel("design"), NoteModel("declared"))
  {
    var prev, next := NoteModel("design"), NoteModel("declared");
    var n := next.nodes[0];
    FindUnique(prev.nodes, prev.nodes[0]);
    assert n in next.nodes && SourceOf(n) == "declared" && PreviousSource(prev, n.id) == "design";
  }

  lemma {:induction false} NoteRewritten(actor: string, at: int)
    ensures Rewritten(NoteModel("design"), NoteModel("declared"), actor, at) == map[]
  {
    var prev, next := NoteModel("design"), NoteModel("declared");
    NoteUnchanged("design", "declared");
    assert Pruned(next) == map[];
    assert IsNote(next.nodes[0]);
    assert MaterializedUpTo(map[], next.nodes, Some(SourcesOf(prev.nodes)), 0) == map[];
    assert Materialized(map[], next.nodes, Some(SourcesOf(prev.nodes))) == map[];
  }

  /** Editing the source of a note raises it. */
  lemma {:induction false} NoteSourceRaises(actor: string, at: int, limit: nat)
    ensures var prev, next := NoteModel("design"), NoteModel("declared");
            Accepted(prev, next) && Stamped(prev, next, actor, at, limit, next)
            && KindOf(prev, ["nodes", "n"]) == Declared && KindOf(next, ["nodes", "n"]) == Imported
  {
    var prev, next := NoteModel("design"), NoteModel("declared");
    NoteTouched();
    NoteRewritten(actor, at);
    NoteStamped(next, limit);
    NothingGoverns(["nodes", "n"]);
    FindUnique(prev.nodes, prev.nodes[0]);
    FindUnique(next.nodes, next.nodes[0]);
    UngovernedNode(prev, ["nodes", "n"]);
    UngovernedNode(next, ["nodes", "n"]);
  }

  lemma {:induction false} NoteStamped(next: Model, limit: nat)
    requires next.prov == map[]
    ensures Compacted(next, limit, map[]) && Synced(next) == next && next.(prov := map[]) == next
  {
    assert SyncNodes(map[], next.nodes) == next.nodes;
  }

  // ---- the change the early return leaves imported -----------------------------------------------

  function ImportedNode(id: string): Element { Element(id, map["source" := Str("declared")]) }

  function ImportedPair(edges: seq<Element>): Model {
    Model(map[], [ImportedNode("a"), ImportedNode("b")], edges, [], [], map[])
  }

  function PairEdge(): Element { Element("e", map["from" := Str("a"), "to" := Str("b")]) }

  lemma {:induction false} SameNodesChangeNothing()
    ensures forall p :: p !in ChangedIn("nodes", ImportedPair([]).nodes, ImportedPair([]).nodes)
  {
    var nodes := ImportedPair([]).nodes;
    forall n | n in nodes ensures ChangedElement(nodes, n, "nodes") == {} {
      FindUnique(nodes, n);
    }
  }

  lemma {:induction false} PairChanges(p: Pointer)
    ensures p in Changed(ImportedPair([]), ImportedPair([PairEdge()])) <==> p == ["edges", "e"]
  {
    var prev, next := ImportedPair([]), ImportedPair([PairEdge()]);
    SameNodesChangeNothing();
    assert ChangedElement([], PairEdge(), "edges") == {["edges", "e"]};
    assert PairEdge() in next.edges && next.Collection("edges") == next.edges && prev.Collection("edges") == [];
    assert ["edges", "e"] in ChangedIn("edges", [], next.edges);
    assert "edges" in COLLECTIONS;
    assert next.Collection("nodes") == next.nodes && prev.Collection("nodes") == prev.nodes;
    assert next.Collection("groups") == [] && next.Collection("identities") == [];
  }

  lemma {:induction false} PairStaysBare()
    ensures StaysBare(ImportedPair([]), ImportedPair([PairEdge()]))
  {
    var prev, next := ImportedPair([]), ImportedPair([PairEdge()]);
    forall p | p in Changed(prev, next) ensures KindOf(prev, p) == Declared {
      PairChanges(p);
      NothingGoverns(p);
    }
    forall n | n in next.nodes ensures PreviousSource(prev, n.id) == SourceOf(n) {
      FindUnique(prev.nodes, n);
    }
  }

  lemma {:induction false} PairEnds()
    ensures var prev, next := ImportedPair([]), ImportedPair([PairEdge()]);
            Find(next.edges, "e") == Some(PairEdge())
            && PreviousKind(prev, next, "a") == Imported && PreviousKind(prev, next, "b") == Imported
  {
    var prev, next := ImportedPair([]), ImportedPair([PairEdge()]);
    FindUnique(next.edges, PairEdge());
    FindUnique(next.nodes, ImportedNode("a"));
    FindUnique(next.nodes, ImportedNode("b"));
    assert SourceOf(ImportedNode("a")) == "declared" && SourceOf(ImportedNode("b")) == "declared";
  }

  /** An edge added between two imported nodes, in a model without a sidecar, does not become declared. */
  lemma {:induction false} AddedEdgeStaysDerived(actor: string, at: int, limit: nat)
    ensures var prev, next := ImportedPair([]), ImportedPair([PairEdge()]);
            Accepted(prev, next) && Stamped(prev, next, actor, at, limit, next)
            && ["edges", "e"] in Changed(prev, next) && KindOf(next, ["edges", "e"]) == Imported
  {
    var prev, next := ImportedPair([]), ImportedPair([PairEdge()]);
    PairChanges(["edges", "e"]);
    PairStaysBare();
    PairAccepted();
    PairKind(prev, next);
  }

  lemma {:induction false} PairKind(prev: Model, next: Model)
    requires prev == ImportedPair([]) && next == ImportedPair([PairEdge()]) && StaysBare(prev, next)
    ensures KindOf(next, ["edges", "e"]) == Imported
  {
    PairEnds();
    assert next.(prov := map[]) == next;
    BareEdge(prev, next, ["edges", "e"]);
  }

  lemma {:induction false} PairAccepted()
    ensures Accepted(ImportedPair([]), ImportedPair([PairEdge()]))
  {
    assert PairEdge().id == "e" && ImportedNode("a").id != ImportedNode("b").id;
  }
}
