/** How far an import may raise a pointer it carries (MergeImport, model/provenance.go:588-627): to its own
    kind, unless it uncovers an older and stronger claim. */
module ImportBounds {
  import opened Options
  import Json
  import opened Pointers
  import opened Sidecar
  import opened Compact
  import opened Fold
  import opened Stamping
  import opened Imports

  /** The keys strictly below the carried pointer that the import leaves. */
  function LeftBelow(prov: Provenance, c: Pointer, rewritten: set<Pointer>): set<Pointer> {
    set k | k in prov && c < k && !AtOrBelowAny(k, rewritten)
  }

  lemma {:induction false} GovernorFrom(keys: set<Pointer>, below: set<Pointer>, c: Pointer, p: Pointer)
    requires c in keys && c != [] && c <= p && (forall k | k in below :: c < k)
    requires forall n | |c| < n <= |p| :: p[..n] in keys <==> p[..n] in below
    ensures Governor(keys, p) == if Governor(below, p).Some? then Governor(below, p) else Some(c)
    decreases |p|
  {
    assert p[..|p|] == p;
    if p == c {
      ShortUngoverned(below, c, p);
    } else {
      assert |p| > |c| && c <= Parent(p);
      forall n | |c| < n <= |Parent(p)| ensures Parent(p)[..n] in keys <==> Parent(p)[..n] in below {
        assert Parent(p)[..n] == p[..n];
      }
      GovernorFrom(keys, below, c, Parent(p));
    }
  }

  lemma {:induction false} ShortUngoverned(below: set<Pointer>, c: Pointer, p: Pointer)
    requires p <= c && forall k | k in below :: c < k
    ensures Governor(below, p) == None
  {
    forall n | 0 < n <= |p| ensures p[..n] in below <==> p[..n] in {} {
      assert |p[..n]| <= |c|;
    }
    GovernorLocal(below, {}, p);
    NothingGoverns(p);
  }

  /** What governs a pointer at or below a carried one: the nearest key left below it, else the import. */
  lemma {:induction false} CarriedClaim(prov: Provenance, carried: seq<Pointer>, rewritten: set<Pointer>, e: Entry, c: Pointer, p: Pointer)
    requires Antichain(carried) && c in carried && c != [] && c <= p
    ensures var g := Governor(LeftBelow(prov, c, rewritten), p);
            Claim(Merged(prov, carried, rewritten, e), p) == Some(if g.Some? then prov[g.value] else e)
  {
    var merged, below := Merged(prov, carried, rewritten, e), LeftBelow(prov, c, rewritten);
    assert carried[..|carried|] == carried;
    MergedBelow(prov, carried, rewritten, e, |carried|, c, c);
    forall n | |c| < n <= |p| ensures p[..n] in merged.Keys <==> p[..n] in below {
      MergedBelow(prov, carried, rewritten, e, |carried|, c, p[..n]);
    }
    GovernorFrom(merged.Keys, below, c, p);
    var g := Governor(below, p);
    if g.Some? {
      MergedBelow(prov, carried, rewritten, e, |carried|, c, g.value);
    }
  }

  /** The key that governed p is rewritten, and the nearest key the import leaves below what it carries is
      stronger than both what p was and the import. */
  ghost predicate Uncovers(m: Model, c: Pointer, rewritten: set<Pointer>, e: Entry, p: Pointer) {
    var was, g := Governor(m.prov.Keys, p), Governor(LeftBelow(m.prov, c, rewritten), p);
    was.Some? && AtOrBelowAny(was.value, rewritten) && g.Some?
    && Rank(m.prov[g.value].kind) > Rank(m.prov[was.value].kind) && Rank(m.prov[g.value].kind) > Rank(e.kind)
  }

  /** A key left below the carried pointer governs p only when p was governed by it or by a rewritten key. */
  lemma {:induction false} LeftGoverns(prov: Provenance, c: Pointer, rewritten: set<Pointer>, p: Pointer)
    requires Governor(LeftBelow(prov, c, rewritten), p).Some?
    ensures var was := Governor(prov.Keys, p);
            was.Some? && (was == Governor(LeftBelow(prov, c, rewritten), p) || AtOrBelowAny(was.value, rewritten))
  {
    var below := LeftBelow(prov, c, rewritten);
    var g, was := Governor(below, p), Governor(prov.Keys, p);
    GovernorIsLongest(prov.Keys, p);
    GovernorIsLongest(below, p);
    assert g.value <= was.value && was.value <= p;
    if !AtOrBelowAny(was.value, rewritten) {
      assert c < g.value && g.value in below;
      assert was.value in below;
      assert was.value <= g.value && |was.value| == |g.value|;
      assert was.value == g.value;
    }
  }

  lemma {:induction false} MergeLifts(m: Model, carried: seq<Pointer>, rewritten: set<Pointer>, e: Entry, c: Pointer, p: Pointer)
    requires Antichain(carried) && c in carried && c != [] && c <= p
    ensures var after := m.(prov := Merged(m.prov, carried, rewritten, e));
            Rank(KindOf(after, p)) > Rank(KindOf(m, p)) && Rank(KindOf(after, p)) > Rank(e.kind) <==> Uncovers(m, c, rewritten, e, p)
  {
    CarriedClaim(m.prov, carried, rewritten, e, c, p);
    if Governor(LeftBelow(m.prov, c, rewritten), p).Some? {
      LeftGoverns(m.prov, c, rewritten, p);
    }
  }

  /** Exactly when an import raises a pointer it carries above both what it was and the import's own kind.
      Over the limit compaction may still weaken it. */
  lemma {:induction false} ImportLiftsIff(m: Model, carried: seq<Pointer>, rewritten: set<Pointer>, e: Entry, limit: nat,
                                          after: Model, c: Pointer, p: Pointer)
    requires m.Unique() && ["attrs"] !in m.prov && ["attrs"] !in carried
    requires Accepts(m, carried, rewritten, e, limit, after) && Antichain(carried) && c in carried && c != [] && c <= p
    ensures var lifted := Rank(KindOf(after, p)) > Rank(KindOf(m, p)) && Rank(KindOf(after, p)) > Rank(e.kind);
            (lifted ==> Uncovers(m, c, rewritten, e, p))
            && (|Merged(m.prov, carried, rewritten, e)| <= limit ==> (lifted <==> Uncovers(m, c, rewritten, e, p)))
  {
    var merged := m.(prov := Merged(m.prov, carried, rewritten, e));
    var k :| Compacted(merged, limit, k) && after == Synced(merged.(prov := k));
    MergeLifts(m, carried, rewritten, e, c, p);
    MergedKey(m.prov, carried, rewritten, e, |carried|, ["attrs"]);
    CompactNeverStrengthens(merged, limit, k, p);
    SyncKeepsKinds(merged.(prov := k), p);
    if |merged.prov| <= limit {
      CompactWithinLimit(merged, limit, k, p);
    }
  }

  /** An import that rewrites what it carries as a whole, as RecordImport does, uncovers nothing. */
  lemma {:induction false} WholeUncoversNothing(m: Model, c: Pointer, rewritten: set<Pointer>, e: Entry, p: Pointer)
    requires AtOrBelowAny(c, rewritten)
    ensures !Uncovers(m, c, rewritten, e, p)
  {
    var r :| r in rewritten && r <= c;
    forall k | k in m.prov && c < k ensures AtOrBelowAny(k, rewritten) {
      assert r <= k;
    }
    assert LeftBelow(m.prov, c, rewritten) == {};
    NothingGoverns(p);
  }

  // ---- an import that uncovers -------------------------------------------------------------------

  const OF_NODE: Pointer := ["nodes", "n"]
  const OF_ATTRS: Pointer := ["nodes", "n", "attrs"]
  const OF_ATTR: Pointer := ["nodes", "n", "attrs", "x"]

  /** A node whose attributes were observed but for one that a person declared. */
  function Observing(): Model {
    Model(map[OF_ATTRS := Plain(Observed, "s"), OF_ATTR := Plain(Declared, "")],
          [Element("n", map["attrs" := Json.Obj(map["x" := Json.Null])])], [], [], [], map[])
  }

  lemma {:induction false} ObservingUncovers(e: Entry)
    requires e.kind == Imported
    ensures Uncovers(Observing(), OF_NODE, {OF_ATTR}, e, OF_ATTR)
  {
    var prov := Observing().prov;
    var below := LeftBelow(prov, OF_NODE, {OF_ATTR});
    assert OF_ATTR in {OF_ATTR} && OF_ATTR <= OF_ATTR;
    assert AtOrBelowAny(OF_ATTR, {OF_ATTR}) && !AtOrBelowAny(OF_ATTRS, {OF_ATTR});
    assert OF_NODE < OF_ATTRS && OF_ATTRS in prov;
    assert below == {OF_ATTRS};
    assert Parent(OF_ATTR) == OF_ATTRS;
    assert Governor(below, OF_ATTR) == Some(OF_ATTRS) && Governor(prov.Keys, OF_ATTR) == Some(OF_ATTR);
  }

  lemma {:induction false} ObservingMerged(e: Entry)
    requires e.kind == Imported
    ensures Merged(Observing().prov, [OF_NODE], {OF_ATTR}, e) == map[OF_NODE := e, OF_ATTRS := Plain(Observed, "s")]
  {
    var prov := Observing().prov;
    assert OF_ATTR in {OF_ATTR} && OF_ATTR <= OF_ATTR;
    assert AtOrBelowAny(OF_ATTR, {OF_ATTR}) && !AtOrBelowAny(OF_ATTRS, {OF_ATTR});
    assert OF_NODE <= OF_ATTRS && OF_NODE <= OF_ATTR;
    assert MergedUpTo(prov, [OF_NODE], {OF_ATTR}, e, 0) == prov;
  }

  /** Compaction within the limit leaves a sidecar without redundant keys as it is. */
  lemma {:induction false} LeanStays(m: Model, limit: nat, order: seq<Pointer>)
    requires (forall k | k in m.prov :: !Redundant(m.prov, k)) && DeepestFirst(order, m.prov.Keys) && |m.prov| <= limit
    ensures Compacted(m, limit, m.prov)
  {
    NothingFolds(m.prov, m.prov.Keys);
    assert m.(prov := m.prov) == m;
    assert CompactedVia(m, limit, m.prov, m.prov, order);
  }

  lemma ObservingSize(prov: Provenance)
    requires prov.Keys == {OF_NODE, OF_ATTRS}
    ensures |prov| == 2
  {
    assert OF_NODE != OF_ATTRS && |prov| == |prov.Keys|;
  }

  lemma ObservingOrder(order: seq<Pointer>)
    requires order == [OF_ATTRS, OF_NODE]
    ensures DeepestFirst(order, {OF_NODE, OF_ATTRS})
  {
    assert order[0] == OF_ATTRS && order[1] == OF_NODE;
  }

  lemma {:induction false} ObservingCompacts(m: Model, e: Entry, limit: nat)
    requires m.prov == map[OF_NODE := e, OF_ATTRS := Plain(Observed, "s")] && e.kind == Imported && limit >= 2
    ensures Compacted(m, limit, m.prov) && |m.prov| == 2
  {
    assert Parent(OF_ATTRS) == OF_NODE && Parent(OF_NODE) == ["nodes"];
    assert m.prov.Keys == {OF_NODE, OF_ATTRS};
    ObservingSize(m.prov);
    ObservingOrder([OF_ATTRS, OF_NODE]);
    LeanStays(m, limit, [OF_ATTRS, OF_NODE]);
  }

  lemma ObservingPlain()
    ensures Observing().Unique() && ["attrs"] !in Observing().prov && ["attrs"] !in [OF_NODE] && OF_NODE in [OF_NODE]
    ensures Antichain([OF_NODE]) && OF_NODE <= OF_ATTR
  {}

  /** The import of the node, which rewrites the declared attribute alone, leaves it observed. */
  lemma {:induction false} ImportUncovers(e: Entry, limit: nat) returns (after: Model)
    requires e.kind == Imported && limit >= 2
    ensures Accepts(Observing(), [OF_NODE], {OF_ATTR}, e, limit, after)
    ensures Rank(KindOf(after, OF_ATTR)) > Rank(KindOf(Observing(), OF_ATTR)) && Rank(KindOf(after, OF_ATTR)) > Rank(e.kind)
  {
    after := ObservingAccepts(e, limit);
    ObservingUncovers(e);
    ObservingPlain();
    ImportLiftsIff(Observing(), [OF_NODE], {OF_ATTR}, e, limit, after, OF_NODE, OF_ATTR);
  }

  lemma {:induction false} ObservingAccepts(e: Entry, limit: nat) returns (after: Model)
    requires e.kind == Imported && limit >= 2
    ensures Accepts(Observing(), [OF_NODE], {OF_ATTR}, e, limit, after)
    ensures |Merged(Observing().prov, [OF_NODE], {OF_ATTR}, e)| <= limit
  {
    var merged := Observing().(prov := Merged(Observing().prov, [OF_NODE], {OF_ATTR}, e));
    ObservingMerged(e);
    ObservingCompacts(merged, e, limit);
    after := Synced(merged.(prov := merged.prov));
  }
}
