/** MergeImport and the drift it reveals (model/provenance.go). */
module Imports {
  import opened Options
  import Json
  import opened Text
  import opened Pointers
  import opened Sidecar
  import opened Compact
  import opened Fold
  import opened Stamping

  /** The source an import read; an absent kind is imported, an absent date is a preview's zero time. */
  datatype ImportSource = ImportSource(
    kind: Option<Kind>,
    identifier: string,
    version: string,
    hash: string,
    fetchedAt: Time,
    cadenceDays: int,
    signatureVerified: bool)

  const MAX_SOURCE_CLOCK_SKEW := 300 * SECOND

  /** boundFetchedAt: a source's own date, never later than its acceptance, and in a preview not
      believed when it lies further in the future than the allowed clock skew. */
  function BoundFetchedAt(source: int, at: Time, now: int): Time {
    var t := source - source % SECOND;
    if at.Some? && t > at.value then at
    else if at.None? && t > now + MAX_SOURCE_CLOCK_SKEW then None
    else Some(t)
  }

  function Seen(src: ImportSource): string {
    if src.hash == "" then src.version else src.hash
  }

  function ImportEntry(src: ImportSource, actor: string, at: Time, now: int): Entry {
    var bounded := if src.fetchedAt.None? then None else BoundFetchedAt(src.fetchedAt.value, at, now);
    Entry(if src.kind.None? then Imported else src.kind.value, src.identifier, src.version, src.hash, actor, at,
          if bounded.Some? then bounded else at, src.cadenceDays, src.signatureVerified, Seen(src), "", None)
  }

  /** One carried pointer: what the import rewrote below it goes, and its entry is replaced. */
  function MergeStep(prov: Provenance, p: Pointer, rewritten: set<Pointer>, e: Entry): Provenance {
    (map k | k in prov && !(p <= k && k != p && AtOrBelowAny(k, rewritten)) :: prov[k])[p := e]
  }

  function MergedUpTo(prov: Provenance, carried: seq<Pointer>, rewritten: set<Pointer>, e: Entry, n: nat): Provenance
    requires n <= |carried|
  {
    if n == 0 then prov
    else MergeStep(MergedUpTo(prov, carried, rewritten, e, n - 1), carried[n - 1], rewritten, e)
  }

  function Merged(prov: Provenance, carried: seq<Pointer>, rewritten: set<Pointer>, e: Entry): Provenance {
    MergedUpTo(prov, carried, rewritten, e, |carried|)
  }

  /** What MergeImport may leave of the model. */
  ghost predicate Accepts(m: Model, carried: seq<Pointer>, rewritten: set<Pointer>, e: Entry, limit: nat, after: Model) {
    var merged := m.(prov := Merged(m.prov, carried, rewritten, e));
    exists c :: Compacted(merged, limit, c) && after == Synced(merged.(prov := c))
  }

  predicate AtOrBelowCarried(p: Pointer, carried: seq<Pointer>) {
    exists i :: 0 <= i < |carried| && carried[i] <= p
  }

  // ---- what the merge stores ---------------------------------------------------------------------

  /** A key the import does not reach keeps its entry, and every entry is the import's or an old one. */
  lemma {:induction false} MergedKey(prov: Provenance, carried: seq<Pointer>, rewritten: set<Pointer>, e: Entry, n: nat, q: Pointer)
    requires n <= |carried|
    ensures var r := MergedUpTo(prov, carried, rewritten, e, n);
            (q in r ==> r[q] == e || (q in prov && r[q] == prov[q]))
            && (!AtOrBelowCarried(q, carried) ==> (q in r <==> q in prov))
            && (!AtOrBelowCarried(q, carried) && q in r ==> r[q] == prov[q])
            && (q in r ==> q in prov || q in carried)
    decreases n
  {
    if n > 0 {
      MergedKey(prov, carried, rewritten, e, n - 1, q);
    }
  }

  /** A key of two tokens is carried or untouched when the import carries whole elements or parts of
      them. */
  lemma {:induction false} MergedElementKey(prov: Provenance, carried: seq<Pointer>, rewritten: set<Pointer>, e: Entry, n: nat, q: Pointer)
    requires n <= |carried| && |q| == 2 && forall c | c in carried :: |c| >= 2
    ensures var r := MergedUpTo(prov, carried, rewritten, e, n);
            (q in r <==> q in prov || q in carried[..n])
            && (q in carried[..n] ==> r[q] == e)
            && (q !in carried[..n] && q in r ==> r[q] == prov[q])
    decreases n
  {
    if n > 0 {
      MergedElementKey(prov, carried, rewritten, e, n - 1, q);
      assert carried[..n] == carried[..n - 1] + [carried[n - 1]];
      assert carried[n - 1] in carried;
    }
  }

  lemma CarriedBelow(q: Pointer, p: Pointer, carried: seq<Pointer>)
    requires q <= p
    ensures AtOrBelowCarried(q, carried) ==> AtOrBelowCarried(p, carried)
  {}

  /** Nothing outside what the import carries changes its stored claim. */
  lemma {:induction false} MergeFrame(prov: Provenance, carried: seq<Pointer>, rewritten: set<Pointer>, e: Entry, p: Pointer)
    requires !AtOrBelowCarried(p, carried)
    ensures Claim(Merged(prov, carried, rewritten, e), p) == Claim(prov, p)
  {
    var r := Merged(prov, carried, rewritten, e);
    forall n | 0 < n <= |p| ensures p[..n] in r.Keys <==> p[..n] in prov.Keys {
      MergedKey(prov, carried, rewritten, e, |carried|, p[..n]);
      CarriedBelow(p[..n], p, carried);
    }
    GovernorLocal(r.Keys, prov.Keys, p);
    var g := Governor(prov.Keys, p);
    if g.Some? {
      MergedKey(prov, carried, rewritten, e, |carried|, g.value);
      CarriedBelow(g.value, p, carried);
    }
  }

  predicate Antichain(carried: seq<Pointer>) {
    forall a, b | a in carried && b in carried && a <= b :: a == b
  }

  /** Carried elements are imported; below one, exactly the keys of rewritten values go, and what the
      import left alone keeps its claim. */
  lemma {:induction false} MergedBelow(prov: Provenance, carried: seq<Pointer>, rewritten: set<Pointer>, e: Entry, n: nat, c: Pointer, k: Pointer)
    requires n <= |carried| && Antichain(carried) && c in carried && c <= k
    ensures var r := MergedUpTo(prov, carried, rewritten, e, n);
            if k == c then (c in carried[..n] ==> c in r && r[c] == e) && (c !in carried[..n] ==> (c in r <==> c in prov))
            else (k in r <==> k in prov && !(c in carried[..n] && AtOrBelowAny(k, rewritten)))
                 && (k in r ==> r[k] == prov[k])
    decreases n
  {
    if n > 0 {
      MergedBelow(prov, carried, rewritten, e, n - 1, c, k);
      var last := carried[n - 1];
      assert carried[..n] == carried[..n - 1] + [last];
      if last <= k {
        PrefixesCompare(last, c, k);
        assert last in carried && last == c;
      }
    }
  }

  lemma PrefixesCompare(a: Pointer, b: Pointer, k: Pointer)
    requires a <= k && b <= k
    ensures a <= b || b <= a
  {}

  // ---- only what is carried can rise -------------------------------------------------------------

  /** p is what an import carries, lies below it, or is an edge derived from a carried endpoint. */
  predicate Reached(m: Model, p: Pointer, carried: seq<Pointer>) {
    AtOrBelowCarried(p, carried)
    || (Derived(m, p) && (AtOrBelowCarried(FromOf(Find(m.edges, p[1]).value), carried)
                          || AtOrBelowCarried(ToOf(Find(m.edges, p[1]).value), carried)))
  }

  lemma {:induction false} MergeKeepsUnreached(m: Model, carried: seq<Pointer>, rewritten: set<Pointer>, e: Entry, p: Pointer)
    requires !Reached(m, p, carried)
    ensures ProvenanceOf(m.(prov := Merged(m.prov, carried, rewritten, e)), p) == ProvenanceOf(m, p)
  {
    MergeFrame(m.prov, carried, rewritten, e, p);
    if Derived(m, p) {
      MergeFrame(m.prov, carried, rewritten, e, FromOf(Find(m.edges, p[1]).value));
      MergeFrame(m.prov, carried, rewritten, e, ToOf(Find(m.edges, p[1]).value));
    }
  }

  /** An import never raises the kind of a pointer it does not reach, whatever its size. */
  lemma {:induction false} ImportRaisesOnlyReached(m: Model, carried: seq<Pointer>, rewritten: set<Pointer>, e: Entry, limit: nat,
                                                   after: Model, p: Pointer)
    requires m.Unique() && ["attrs"] !in m.prov && ["attrs"] !in carried
    requires Accepts(m, carried, rewritten, e, limit, after) && !Reached(m, p, carried)
    ensures Rank(KindOf(after, p)) <= Rank(KindOf(m, p))
  {
    var merged := m.(prov := Merged(m.prov, carried, rewritten, e));
    var c :| Compacted(merged, limit, c) && after == Synced(merged.(prov := c));
    MergedKey(m.prov, carried, rewritten, e, |carried|, ["attrs"]);
    MergeKeepsUnreached(m, carried, rewritten, e, p);
    CompactNeverStrengthens(merged, limit, c, p);
    SyncKeepsKinds(merged.(prov := c), p);
  }

  // ---- drift -------------------------------------------------------------------------------------

  /** The entry records an import of its identifier. */
  predicate Records(e: Entry) {
    e.kind != Declared && e.identifier != "" && e.lastSeenImport != ""
  }

  /** newerImport: by acceptance, then by the source's own date, then by value. */
  predicate Newer(x: Entry, y: Entry) {
    if CmpTime(x.importedAt, y.importedAt) != 0 then CmpTime(x.importedAt, y.importedAt) > 0
    else if CmpTime(x.fetchedAt, y.fetchedAt) != 0 then CmpTime(x.fetchedAt, y.fetchedAt) > 0
    else Before(y.lastSeenImport, x.lastSeenImport)
  }

  lemma CmpTimeTrans(x: Time, y: Time, z: Time)
    ensures CmpTime(x, y) <= 0 && CmpTime(y, z) <= 0 ==> CmpTime(x, z) <= 0
    ensures CmpTime(x, y) == 0 ==> x == y
    ensures CmpTime(x, y) == -CmpTime(y, x)
  {}

  /** Newer is a strict weak order whose ties agree on the value. */
  lemma NewerOrder(x: Entry, y: Entry, z: Entry)
    ensures !Newer(x, y) && !Newer(y, z) ==> !Newer(x, z)
    ensures !(Newer(x, y) && Newer(y, x))
    ensures !Newer(x, y) && !Newer(y, x) ==> x.lastSeenImport == y.lastSeenImport
  {
    BeforeTotal(x.lastSeenImport, y.lastSeenImport);
    BeforeTotal(y.lastSeenImport, z.lastSeenImport);
    BeforeTotal(x.lastSeenImport, z.lastSeenImport);
    if Before(z.lastSeenImport, x.lastSeenImport) && Before(x.lastSeenImport, y.lastSeenImport) {
      BeforeTransitive(z.lastSeenImport, x.lastSeenImport, y.lastSeenImport);
    }
    if Before(y.lastSeenImport, z.lastSeenImport) && Before(z.lastSeenImport, x.lastSeenImport) {
      BeforeTransitive(y.lastSeenImport, z.lastSeenImport, x.lastSeenImport);
    }
  }

  /** k records an import of id that no recorded import of id is newer than. */
  predicate LatestAt(prov: Provenance, id: string, k: Pointer) {
    k in prov && Records(prov[k]) && prov[k].identifier == id
    && forall j | j in prov && Records(prov[j]) && prov[j].identifier == id :: !Newer(prov[j], prov[k])
  }

  /** LatestImports as a relation: an identifier maps to the value of a latest import of it. */
  ghost predicate IsLatestImports(prov: Provenance, latest: map<string, string>) {
    (forall k | k in prov && Records(prov[k]) :: prov[k].identifier in latest)
    && forall id | id in latest :: exists k :: LatestAt(prov, id, k) && prov[k].lastSeenImport == latest[id]
  }

  /** The latest imports do not depend on the order the sidecar is read in. */
  lemma LatestImportsUnique(prov: Provenance, a: map<string, string>, b: map<string, string>)
    requires IsLatestImports(prov, a) && IsLatestImports(prov, b)
    ensures a == b
  {
    assert a.Keys == b.Keys;
    forall id | id in a ensures a[id] == b[id] {
      var j :| LatestAt(prov, id, j) && prov[j].lastSeenImport == a[id];
      var k :| LatestAt(prov, id, k) && prov[k].lastSeenImport == b[id];
      NewerOrder(prov[j], prov[k], prov[k]);
    }
  }

  function LatestOf(latest: map<string, string>, id: string): string {
    if id in latest then latest[id] else ""
  }

  predicate DriftedAgainst(latest: map<string, string>, e: Entry) {
    Records(e) && LatestOf(latest, e.identifier) != "" && LatestOf(latest, e.identifier) != e.lastSeenImport
  }

  predicate NodeOrEdge(k: Pointer) {
    |k| == 2 && (k[0] == "nodes" || k[0] == "edges")
  }

  predicate DriftedKey(prov: Provenance, latest: map<string, string>, id: string, k: Pointer) {
    k in prov && prov[k].identifier == id && DriftedAgainst(latest, prov[k]) && NodeOrEdge(k)
  }

  /** The nodes and edges of an identifier whose element-level entry drifted. */
  function Drifted(prov: Provenance, latest: map<string, string>, id: string): set<Pointer> {
    set k | k in prov && DriftedKey(prov, latest, id, k)
  }

  /** The elements an import leaves behind: recorded for its identifier, not carried, last seen in
      another import. */
  function LeftBehind(prov: Provenance, carried: seq<Pointer>, id: string, seen: string): set<Pointer> {
    set k | k in prov && LeftKey(prov, carried, id, seen, k)
  }

  predicate LeftKey(prov: Provenance, carried: seq<Pointer>, id: string, seen: string, k: Pointer) {
    k in prov && prov[k].identifier == id && Records(prov[k]) && prov[k].lastSeenImport != seen
    && NodeOrEdge(k) && k !in carried
  }

  // ---- drift after an import ---------------------------------------------------------------------

  /** The import is dated after every import of its identifier the sidecar records. */
  predicate DatedLater(prov: Provenance, e: Entry) {
    forall k | k in prov && Records(prov[k]) && prov[k].identifier == e.identifier ::
      CmpTime(prov[k].importedAt, e.importedAt) < 0
  }

  /** Every stored entry is the import's claim or an old entry's. */
  predicate FromMerge(prov: Provenance, e: Entry, x: Entry) {
    SameClaim(x, e) || exists k :: k in prov && SameClaim(x, prov[k])
  }

  lemma {:induction false} SqueezedFromMerge(prov: Provenance, carried: seq<Pointer>, rewritten: set<Pointer>, e: Entry,
                                             after: Provenance, k: Pointer)
    requires Squeezed(Merged(prov, carried, rewritten, e), after) && k in after
    ensures FromMerge(prov, e, after[k])
  {
    MergedKey(prov, carried, rewritten, e, |carried|, k);
  }

  /** Some key still makes the import's claim: the one that governs the last carried pointer. */
  lemma {:induction false} ImportClaimSurvives(prov: Provenance, carried: seq<Pointer>, rewritten: set<Pointer>, e: Entry,
                                               after: Provenance)
    requires Squeezed(Merged(prov, carried, rewritten, e), after) && carried != [] && [] !in carried
    ensures exists k :: k in after && SameClaim(after[k], e)
  {
    var c := carried[|carried| - 1];
    var merged := Merged(prov, carried, rewritten, e);
    assert c in carried && c in merged && merged[c] == e;
    SqueezePreservesMeaning(merged, after, c);
    assert Governor(merged.Keys, c) == Some(c);
    assert SameClaim(after[Governor(after.Keys, c).value], e);
  }

  lemma {:induction false} NoneNewer(prov: Provenance, e: Entry, x: Entry, y: Entry)
    requires DatedLater(prov, e) && FromMerge(prov, e, x) && Records(x) && x.identifier == e.identifier
    requires SameClaim(y, e)
    ensures !Newer(x, y)
  {
    BeforeTotal(x.lastSeenImport, y.lastSeenImport);
    if !SameClaim(x, e) {
      var k :| k in prov && SameClaim(x, prov[k]);
      assert Records(prov[k]) && prov[k].identifier == e.identifier;
      CmpTimeTrans(prov[k].importedAt, e.importedAt, e.importedAt);
    }
  }

  lemma {:induction false} LatestIsTheImport(prov: Provenance, carried: seq<Pointer>, rewritten: set<Pointer>, e: Entry,
                                             after: Provenance, latest: map<string, string>)
    requires Squeezed(Merged(prov, carried, rewritten, e), after) && carried != [] && [] !in carried
    requires Records(e) && DatedLater(prov, e) && IsLatestImports(after, latest)
    ensures LatestOf(latest, e.identifier) == e.lastSeenImport
  {
    ImportClaimSurvives(prov, carried, rewritten, e, after);
    var k :| k in after && SameClaim(after[k], e);
    assert Records(after[k]);
    var j :| LatestAt(after, e.identifier, j) && after[j].lastSeenImport == latest[e.identifier];
    SqueezedFromMerge(prov, carried, rewritten, e, after, j);
    NoneNewer(prov, e, after[j], after[k]);
    NewerOrder(after[j], after[k], after[k]);
  }

  /** A key of two tokens is never folded away when every key has at least two. */
  lemma {:induction false} ElementKeySurvives(before: Provenance, after: Provenance, k: Pointer)
    requires Squeezed(before, after) && |k| == 2 && forall q | q in before :: |q| >= 2
    ensures k in after <==> k in before
    ensures k in after ==> SameClaim(after[k], before[k])
  {
    ShortIsUngoverned(before.Keys, Parent(k));
  }

  lemma {:induction false} ShortIsUngoverned(keys: set<Pointer>, p: Pointer)
    requires |p| <= 1 && forall q | q in keys :: |q| >= 2
    ensures Governor(keys, p) == None
  {
    if p != [] {
      assert Governor(keys, p) == Governor(keys, Parent(p));
    }
  }

  /** After an accepted import dated later than all recorded imports of its identifier, the drifted
      elements are exactly what the import left behind. */
  lemma {:induction false} DriftIsWhatWasLeftBehind(m: Model, carried: seq<Pointer>, rewritten: set<Pointer>, e: Entry, limit: nat,
                                                    after: Model, latest: map<string, string>)
    requires Accepts(m, carried, rewritten, e, limit, after) && |Merged(m.prov, carried, rewritten, e)| <= limit
    requires carried != [] && Records(e) && DatedLater(m.prov, e)
    requires (forall k | k in m.prov :: |k| >= 2) && forall c | c in carried :: |c| >= 2
    requires IsLatestImports(after.prov, latest)
    ensures Drifted(after.prov, latest, e.identifier) == LeftBehind(m.prov, carried, e.identifier, e.lastSeenImport)
  {
    var merged := m.(prov := Merged(m.prov, carried, rewritten, e));
    var c :| Compacted(merged, limit, c) && after == Synced(merged.(prov := c));
    WithinLimitSqueezes(merged, limit, c);
    SqueezedDrift(m.prov, carried, rewritten, e, c, latest);
  }

  lemma {:induction false} SqueezedDrift(prov: Provenance, carried: seq<Pointer>, rewritten: set<Pointer>, e: Entry,
                                         after: Provenance, latest: map<string, string>)
    requires Squeezed(Merged(prov, carried, rewritten, e), after)
    requires carried != [] && Records(e) && DatedLater(prov, e)
    requires (forall k | k in prov :: |k| >= 2) && forall c | c in carried :: |c| >= 2
    requires IsLatestImports(after, latest)
    ensures Drifted(after, latest, e.identifier) == LeftBehind(prov, carried, e.identifier, e.lastSeenImport)
  {
    LatestIsTheImport(prov, carried, rewritten, e, after, latest);
    EveryDrift(prov, carried, rewritten, e, after, latest);
    SameKeys(prov, carried, e.identifier, e.lastSeenImport, after, latest);
  }

  lemma {:induction false} SameKeys(prov: Provenance, carried: seq<Pointer>, id: string, seen: string,
                                    after: Provenance, latest: map<string, string>)
    requires forall k :: DriftedKey(after, latest, id, k) <==> LeftKey(prov, carried, id, seen, k)
    ensures Drifted(after, latest, id) == LeftBehind(prov, carried, id, seen)
  {}

  lemma {:induction false} EveryDrift(prov: Provenance, carried: seq<Pointer>, rewritten: set<Pointer>, e: Entry,
                                      after: Provenance, latest: map<string, string>)
    requires Squeezed(Merged(prov, carried, rewritten, e), after)
    requires (forall q | q in prov :: |q| >= 2) && forall c | c in carried :: |c| >= 2
    requires Records(e) && LatestOf(latest, e.identifier) == e.lastSeenImport
    ensures forall k :: DriftedKey(after, latest, e.identifier, k)
                        <==> LeftKey(prov, carried, e.identifier, e.lastSeenImport, k)
  {
    forall k ensures DriftedKey(after, latest, e.identifier, k)
                     <==> LeftKey(prov, carried, e.identifier, e.lastSeenImport, k)
    {
      if |k| == 2 {
        DriftAt(prov, carried, rewritten, e, after, latest, k);
      }
    }
  }

  lemma {:induction false} DriftAt(prov: Provenance, carried: seq<Pointer>, rewritten: set<Pointer>, e: Entry,
                                   after: Provenance, latest: map<string, string>, k: Pointer)
    requires Squeezed(Merged(prov, carried, rewritten, e), after) && |k| == 2
    requires (forall q | q in prov :: |q| >= 2) && forall c | c in carried :: |c| >= 2
    requires Records(e) && LatestOf(latest, e.identifier) == e.lastSeenImport
    ensures DriftedKey(after, latest, e.identifier, k) <==> LeftKey(prov, carried, e.identifier, e.lastSeenImport, k)
  {
    var merged := Merged(prov, carried, rewritten, e);
    forall q | q in merged ensures |q| >= 2 {
      MergedKey(prov, carried, rewritten, e, |carried|, q);
    }
    ElementKeySurvives(merged, after, k);
    MergedElementKey(prov, carried, rewritten, e, |carried|, k);
    assert carried[..|carried|] == carried;
  }

  // ---- distrust ----------------------------------------------------------------------------------

  predicate AboveDesign(n: Element) {
    SourceOf(n) != "" && SourceOf(n) != "design"
  }

  /** How many of the first n nodes claim a source above design. */
  function CountAbove(nodes: seq<Element>, n: nat): nat
    requires n <= |nodes|
  {
    if n == 0 then 0 else CountAbove(nodes, n - 1) + if AboveDesign(nodes[n - 1]) then 1 else 0
  }

  function DistrustNode(n: Element): Element {
    if AboveDesign(n) then n.(members := n.members["source" := Json.Str("design")]) else n
  }

  function DistrustNodes(nodes: seq<Element>): (r: seq<Element>)
    ensures |r| == |nodes| && forall i | 0 <= i < |nodes| :: r[i] == DistrustNode(nodes[i])
  {
    seq(|nodes|, i requires 0 <= i < |nodes| => DistrustNode(nodes[i]))
  }

  /** DistrustProvenance: every entry goes and every source above design is read as design. */
  function Distrusted(m: Model): Model {
    m.(prov := map[], nodes := DistrustNodes(m.nodes))
  }

  lemma {:induction false} DistrustFind(nodes: seq<Element>, id: string)
    ensures Find(nodes, id).None? ==> Find(DistrustNodes(nodes), id).None?
    ensures Find(nodes, id).Some? ==> Find(DistrustNodes(nodes), id) == Some(DistrustNode(Find(nodes, id).value))
  {
    if nodes != [] && nodes[0].id != id {
      DistrustFind(nodes[1..], id);
      assert DistrustNodes(nodes)[1..] == DistrustNodes(nodes[1..]);
    }
  }

  lemma {:induction false} DistrustedBase(m: Model, p: Pointer)
    ensures BaseProvenance(Distrusted(m), p).kind == Declared
  {
    NothingGoverns(p);
    if |p| >= 2 {
      DistrustFind(m.nodes, p[1]);
    }
  }

  /** A distrusted model resolves declared throughout. */
  lemma {:induction false} DistrustedIsDeclared(m: Model, p: Pointer)
    ensures KindOf(Distrusted(m), p) == Declared
  {
    DistrustedBase(m, p);
    if Derived(Distrusted(m), p) {
      DistrustedBase(m, FromOf(Find(m.edges, p[1]).value));
      DistrustedBase(m, ToOf(Find(m.edges, p[1]).value));
      DerivedKind(Distrusted(m), p);
    }
  }
}
