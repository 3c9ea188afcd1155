/** What an accepted import leaves in the fields of the sidecar's entries, and what drift and distrust read
    there (model/provenance.go). */
module ImportLaws {
  import opened Options
  import opened Json
  import opened Text
  import opened Pointers
  import opened Sidecar
  import opened Fold
  import opened Stamping
  import opened Imports
  import opened ImportBounds

  // ---- the dates of an import --------------------------------------------------------------------

  /** The fetch date of an accepted import is the source's own, cut to the second, when the source is dated no
      later than the acceptance, and the acceptance when it is dated later or not at all. It is never later than
      the acceptance. */
  lemma {:induction false} AcceptedFetchDate(src: ImportSource, actor: string, at: int, now: int)
    ensures var f := ImportEntry(src, actor, Some(at), now).fetchedAt;
            f.Some? && f.value <= at
            && (src.fetchedAt.None? ==> f.value == at)
            && (src.fetchedAt.Some? && src.fetchedAt.value <= at ==>
                  f.value <= src.fetchedAt.value < f.value + 1_000_000_000 && f.value % 1_000_000_000 == 0)
            && (src.fetchedAt.Some? && src.fetchedAt.value >= at + 1_000_000_000 ==> f.value == at)
  {}

  /** In a preview a source's date is kept to the second up to five minutes past the clock, and dropped beyond. */
  lemma {:induction false} PreviewFetchDate(src: ImportSource, actor: string, now: int)
    ensures var f := ImportEntry(src, actor, None, now).fetchedAt;
            (src.fetchedAt.None? ==> f.None?)
            && (f.Some? ==> f.value <= now + 300_000_000_000)
            && (src.fetchedAt.Some? && src.fetchedAt.value <= now + 300_000_000_000 ==>
                  f.Some? && f.value <= src.fetchedAt.value < f.value + 1_000_000_000 && f.value % 1_000_000_000 == 0)
            && (src.fetchedAt.Some? && src.fetchedAt.value >= now + 301_000_000_000 ==> f.None?)
  {}

  /** Two sources with different hashes leave different import values, whatever their versions; so do two without
      hashes and with different versions. */
  lemma {:induction false} SeenSeparates(x: ImportSource, y: ImportSource, actor: string, at: Time, now: int)
    requires x.hash != y.hash || (x.hash == "" && x.version != y.version)
    requires x.hash == "" <==> y.hash == ""
    ensures ImportEntry(x, actor, at, now).lastSeenImport != ImportEntry(y, actor, at, now).lastSeenImport
  {}

  /** Within the limit a carried element resolves to the source's own fields, as accepted. */
  lemma {:induction false} CarriedReads(m: Model, src: ImportSource, carried: seq<Pointer>, rewritten: set<Pointer>,
                                        actor: string, at: Time, now: int, limit: nat, after: Model, c: Pointer)
    requires m.Unique() && Antichain(carried) && c in carried && c != []
    requires Accepts(m, carried, rewritten, ImportEntry(src, actor, at, now), limit, after)
    requires |Merged(m.prov, carried, rewritten, ImportEntry(src, actor, at, now))| <= limit
    ensures var r := ProvenanceOf(after, c);
            r.kind == (if src.kind.Some? then src.kind.value else Imported)
            && r.identifier == src.identifier && r.version == src.version && r.hash == src.hash
            && r.importedBy == actor && r.importedAt == at && r.cadenceDays == src.cadenceDays
            && r.signatureVerified == src.signatureVerified && r.declaredBy == ""
            && r.lastSeenImport == (if src.hash != "" then src.hash else src.version)
            && CmpTime(r.fetchedAt, ImportEntry(src, actor, at, now).fetchedAt) == 0
            && (at.Some? ==> CmpTime(r.fetchedAt, at) <= 0)
  {
    var e := ImportEntry(src, actor, at, now);
    CarriedClaim(m.prov, carried, rewritten, e, c, c);
    NothingLeftAt(m.prov, c, rewritten);
    var merged := m.(prov := Merged(m.prov, carried, rewritten, e));
    var k :| Compacted(merged, limit, k) && after == Synced(merged.(prov := k));
    CompactWithinLimit(merged, limit, k, c);
    SyncBase(merged.(prov := k), c);
    assert SameClaim(ProvenanceOf(after, c), e);
  }

  lemma {:induction false} NothingLeftAt(prov: Provenance, c: Pointer, rewritten: set<Pointer>)
    ensures Governor(LeftBelow(prov, c, rewritten), c).None?
  {
    var below := LeftBelow(prov, c, rewritten);
    forall n | 0 < n <= |c| ensures c[..n] in below <==> c[..n] in {} {
      assert c <= c[..n] ==> c[..n] == c;
    }
    GovernorLocal(below, {}, c);
    NothingGoverns(c);
  }

  // ---- which import is the latest ----------------------------------------------------------------

  /** Of the recorded imports of an identifier, one accepted later than all others is its latest, whatever else
      the entries say. */
  lemma {:induction false} LaterAcceptanceWins(prov: Provenance, latest: map<string, string>, k: Pointer)
    requires IsLatestImports(prov, latest) && k in prov && prov[k].importedAt.Some?
    requires prov[k].kind != Declared && prov[k].identifier != "" && prov[k].lastSeenImport != ""
    requires forall j | j in prov && prov[j].identifier == prov[k].identifier && j != k ::
               prov[j].importedAt.Some? ==> prov[j].importedAt.value < prov[k].importedAt.value
    ensures prov[k].identifier in latest && latest[prov[k].identifier] == prov[k].lastSeenImport
  {
    assert Records(prov[k]);
    LatestUnlessNewer(prov, latest, k);
  }

  lemma {:induction false} LatestUnlessNewer(prov: Provenance, latest: map<string, string>, k: Pointer)
    requires IsLatestImports(prov, latest) && k in prov && Records(prov[k])
    requires forall j | j in prov && prov[j].identifier == prov[k].identifier && j != k :: Newer(prov[k], prov[j])
    ensures prov[k].identifier in latest && latest[prov[k].identifier] == prov[k].lastSeenImport
  {
    var j :| LatestAt(prov, prov[k].identifier, j) && prov[j].lastSeenImport == latest[prov[k].identifier];
    assert !Newer(prov[k], prov[j]);
  }

  /** Of two accepted together, the one its source dated later is the latest. */
  lemma {:induction false} LaterFetchBreaksTies(prov: Provenance, latest: map<string, string>, k: Pointer)
    requires IsLatestImports(prov, latest) && k in prov && prov[k].fetchedAt.Some?
    requires prov[k].kind != Declared && prov[k].identifier != "" && prov[k].lastSeenImport != ""
    requires forall j | j in prov && prov[j].identifier == prov[k].identifier && j != k ::
               prov[j].importedAt == prov[k].importedAt
               && (prov[j].fetchedAt.Some? ==> prov[j].fetchedAt.value < prov[k].fetchedAt.value)
    ensures prov[k].identifier in latest && latest[prov[k].identifier] == prov[k].lastSeenImport
  {
    assert Records(prov[k]);
    LatestUnlessNewer(prov, latest, k);
  }

  /** And of two with both dates equal, the one with the greater value. */
  lemma {:induction false} GreaterValueBreaksTies(prov: Provenance, latest: map<string, string>, k: Pointer)
    requires IsLatestImports(prov, latest) && k in prov
    requires prov[k].kind != Declared && prov[k].identifier != "" && prov[k].lastSeenImport != ""
    requires forall j | j in prov && prov[j].identifier == prov[k].identifier && j != k ::
               prov[j].importedAt == prov[k].importedAt && prov[j].fetchedAt == prov[k].fetchedAt
               && Before(prov[j].lastSeenImport, prov[k].lastSeenImport)
    ensures prov[k].identifier in latest && latest[prov[k].identifier] == prov[k].lastSeenImport
  {
    assert Records(prov[k]);
    LatestUnlessNewer(prov, latest, k);
  }

  /** An identifier has a latest import exactly when some entry that is not declared names it and a value. */
  lemma {:induction false} HasLatest(prov: Provenance, latest: map<string, string>, id: string)
    requires IsLatestImports(prov, latest)
    ensures id in latest <==>
            id != "" && exists k :: k in prov && prov[k].identifier == id && prov[k].kind in {Imported, Observed}
                                    && prov[k].lastSeenImport != ""
  {
    if id in latest {
      var k :| LatestAt(prov, id, k) && prov[k].lastSeenImport == latest[id];
      assert Records(prov[k]);
    }
    if k :| k in prov && prov[k].identifier == id && prov[k].kind in {Imported, Observed} && prov[k].lastSeenImport != "" {
      assert id != "" ==> Records(prov[k]);
    }
  }

  /** Drift shows on nodes and edges only, as a whole, and exactly when the value last seen there is not the
      latest. */
  lemma {:induction false} DriftShows(prov: Provenance, latest: map<string, string>, id: string, k: Pointer)
    requires IsLatestImports(prov, latest)
    ensures k in Drifted(prov, latest, id) <==>
            |k| == 2 && k[0] in {"nodes", "edges"} && k in prov && prov[k].identifier == id && id != ""
            && prov[k].kind in {Imported, Observed} && prov[k].lastSeenImport != ""
            && id in latest && prov[k].lastSeenImport != latest[id]
  {
    if id in latest {
      LatestIsNamed(prov, latest, id);
    }
  }

  lemma {:induction false} LatestIsNamed(prov: Provenance, latest: map<string, string>, id: string)
    requires IsLatestImports(prov, latest) && id in latest
    ensures latest[id] != ""
  {
    var j :| LatestAt(prov, id, j) && prov[j].lastSeenImport == latest[id];
    assert Records(prov[j]);
  }

  // ---- distrust ----------------------------------------------------------------------------------

  /** After distrust no node claims more than design; a node that claimed nothing more keeps every member, and
      the others lose only that claim. */
  lemma {:induction false} DistrustWrites(m: Model, i: nat)
    requires i < |m.nodes|
    ensures var n, r := m.nodes[i], Distrusted(m).nodes[i];
            var trusted := "source" in n.members && n.members["source"].Str? && n.members["source"].s !in {"", "design"};
            r == if trusted then Element(n.id, n.members["source" := Str("design")]) else n
  {}

  /** The reported number of sources is the number of nodes whose members changed. */
  lemma {:induction false} CountAboveIsChanged(nodes: seq<Element>, changed: set<int>)
    requires forall i :: i in changed <==> 0 <= i < |nodes| && DistrustNodes(nodes)[i] != nodes[i]
    ensures CountAbove(nodes, |nodes|) == |changed|
  {
    forall i | 0 <= i < |nodes| ensures i in changed <==> AboveDesign(nodes[i]) {
      ChangedNode(nodes, i);
    }
    CountIsSize(nodes, |nodes|, changed);
  }

  lemma {:induction false} CountIsSize(nodes: seq<Element>, n: nat, above: set<int>)
    requires n <= |nodes| && forall i :: i in above <==> 0 <= i < n && AboveDesign(nodes[i])
    ensures CountAbove(nodes, n) == |above|
    decreases n
  {
    if n > 0 {
      CountIsSize(nodes, n - 1, above - {n - 1});
    } else {
      forall i ensures i !in above {}
      assert above == {};
    }
  }

  lemma {:induction false} ChangedNode(nodes: seq<Element>, i: nat)
    requires i < |nodes|
    ensures DistrustNodes(nodes)[i] != nodes[i] <==> AboveDesign(nodes[i])
  {
    var n := nodes[i];
    if AboveDesign(n) {
      assert DistrustNode(n).members["source"] == Str("design") != n.members["source"];
    }
  }
}
