/** What the provenance operations mean in the JSON of the models and the fields of the entries
    (model/provenance.go). */
module ProvenanceLaws {
  import opened Options
  import opened Json
  import opened Pointers
  import opened Text
  import opened Sidecar
  import opened Compact
  import opened Fold
  import opened Changes
  import opened Stamping
  import opened Sets

  // ---- what a patch changed ----------------------------------------------------------------------

  /** The element of the id in a collection of both models. */
  predicate InBoth(prev: Model, next: Model, coll: string, id: string) {
    coll in {"nodes", "edges", "groups", "identities"}
    && Find(prev.Collection(coll), id).Some? && Find(next.Collection(coll), id).Some?
  }

  function MembersIn(m: Model, coll: string, id: string): Members
    requires Find(m.Collection(coll), id).Some?
  {
    Find(m.Collection(coll), id).value.members
  }

  lemma {:induction false} RootPointer(was: Members, now: Members, p: Pointer)
    requires p in ChangedAttrs(was, now, ["attrs"])
    ensures p != [] && p[0] == "attrs"
  {}

  lemma {:induction false} ElementPart(prev: Model, next: Model, coll: string, id: string, p: Pointer)
    requires next.Unique() && coll in COLLECTIONS && Find(next.Collection(coll), id).Some?
    requires |p| >= 2 && p[0] == coll && p[1] == id && p in Changed(prev, next)
    ensures p in ChangedElement(prev.Collection(coll), Find(next.Collection(coll), id).value, coll)
  {
    forall x | x in ChangedAttrs(prev.attrs, next.attrs, ["attrs"]) ensures x[..1] == ["attrs"] {
      RootPointer(prev.attrs, next.attrs, x);
    }
    var name, e := ChangedFrom(prev, next, p);
    SameElement(next, prev.Collection(name), name, e, p);
  }

  lemma {:induction false} SameElement(m: Model, prevs: seq<Element>, name: string, e: Element, p: Pointer)
    requires m.Unique() && name in COLLECTIONS && e in m.Collection(name) && p in ChangedElement(prevs, e, name)
    ensures |p| >= 2 && p[0] == name && p[1] == e.id && Find(m.Collection(name), e.id) == Some(e)
  {
    assert UniqueIds(m.Collection(name));
    ChangedElementResolves(m, prevs, e, name, p);
    FindUnique(m.Collection(name), e);
  }

  lemma {:induction false} ElementPartBack(prev: Model, next: Model, coll: string, id: string, p: Pointer)
    requires coll in COLLECTIONS && Find(next.Collection(coll), id).Some?
    requires p in ChangedElement(prev.Collection(coll), Find(next.Collection(coll), id).value, coll)
    ensures p in Changed(prev, next)
  {
    assert p in ChangedIn(coll, prev.Collection(coll), next.Collection(coll));
  }

  lemma {:induction false} ElementPartIff(prev: Model, next: Model, coll: string, id: string, p: Pointer)
    requires next.Unique() && InBoth(prev, next, coll, id) && |p| >= 2 && p[0] == coll && p[1] == id
    ensures p in Changed(prev, next) <==>
            p in ChangedMembers(MembersIn(prev, coll, id), MembersIn(next, coll, id), [coll, id])
  {
    if p in Changed(prev, next) {
      ElementPart(prev, next, coll, id, p);
    }
    if p in ChangedElement(prev.Collection(coll), Find(next.Collection(coll), id).value, coll) {
      ElementPartBack(prev, next, coll, id, p);
    }
  }

  /** An attribute is changed exactly when the new element holds it and the old one does not, or holds
      another value there. */
  lemma {:induction false} AttributeChanges(prev: Model, next: Model, coll: string, id: string, k: string)
    requires next.Unique() && InBoth(prev, next, coll, id)
    ensures var was, now := ObjectAt(MembersIn(prev, coll, id), "attrs"), ObjectAt(MembersIn(next, coll, id), "attrs");
            [coll, id, "attrs", k] in Changed(prev, next) <==> k in now && (k !in was || was[k] != now[k])
  {
    AttributePart(MembersIn(prev, coll, id), MembersIn(next, coll, id), coll, id, k);
    ElementPartIff(prev, next, coll, id, [coll, id, "attrs", k]);
  }

  lemma {:induction false} AttributePart(prev: Members, next: Members, coll: string, id: string, k: string)
    ensures var was, now := ObjectAt(prev, "attrs"), ObjectAt(next, "attrs");
            [coll, id, "attrs", k] in ChangedMembers(prev, next, [coll, id]) <==> k in now && (k !in was || was[k] != now[k])
  {
    var p := [coll, id, "attrs", k];
    assert forall m :: |[coll, id] + [m]| == 3;
    forall j ensures [coll, id] + ["attrs"] + [j] == p <==> j == k {
      assert ([coll, id] + ["attrs"] + [j])[3] == j;
    }
  }

  /** Another member is changed exactly when the new element holds it with another value than the old one,
      where an absent member reads as null; layout, ids and the source never are. */
  lemma {:induction false} MemberChanges(prev: Model, next: Model, coll: string, id: string, k: string)
    requires next.Unique() && InBoth(prev, next, coll, id)
    ensures var was, now := MembersIn(prev, coll, id), MembersIn(next, coll, id);
            [coll, id, k] in Changed(prev, next) <==>
            k !in {"position", "positions", "size", "icon", "source", "id", "attrs"}
            && k in now && now[k] != if k in was then was[k] else Null
  {
    MemberPart(MembersIn(prev, coll, id), MembersIn(next, coll, id), coll, id, k);
    ElementPartIff(prev, next, coll, id, [coll, id, k]);
  }

  lemma {:induction false} MemberPart(prev: Members, next: Members, coll: string, id: string, k: string)
    ensures [coll, id, k] in ChangedMembers(prev, next, [coll, id]) <==>
            k !in {"position", "positions", "size", "icon", "source", "id", "attrs"}
            && k in next && next[k] != if k in prev then prev[k] else Null
  {
    var p := [coll, id, k];
    forall j ensures [coll, id] + [j] == p <==> j == k {
      assert ([coll, id] + [j])[2] == j;
    }
    assert forall j :: |[coll, id] + ["attrs"] + [j]| == 4;
  }

  /** An element as a whole is changed exactly when it is new. */
  lemma {:induction false} ElementChanges(prev: Model, next: Model, coll: string, id: string)
    requires next.Unique() && coll in {"nodes", "edges", "groups", "identities"}
    ensures [coll, id] in Changed(prev, next) <==>
            Find(next.Collection(coll), id).Some? && Find(prev.Collection(coll), id).None?
  {
    var p := [coll, id];
    if p in Changed(prev, next) {
      ChangedResolves(prev, next, p);
    } else if Find(next.Collection(coll), id).Some? && Find(prev.Collection(coll), id).None? {
      ElementPartBack(prev, next, coll, id, p);
    }
  }

  /** A root attribute is changed exactly when it is new or has another value. */
  lemma {:induction false} RootChanges(prev: Model, next: Model, k: string)
    requires next.Unique()
    ensures ["attrs", k] in Changed(prev, next) <==> k in next.attrs && (k !in prev.attrs || prev.attrs[k] != next.attrs[k])
  {
    forall j ensures ["attrs"] + [j] == ["attrs", k] <==> j == k {
      assert (["attrs"] + [j])[1] == j;
    }
    if ["attrs", k] in Changed(prev, next) {
      RootPart(prev, next, ["attrs", k]);
    }
  }

  lemma {:induction false} RootPart(prev: Model, next: Model, p: Pointer)
    requires next.Unique() && p in Changed(prev, next) && p != [] && p[0] == "attrs"
    ensures p in ChangedAttrs(prev.attrs, next.attrs, ["attrs"])
  {
    if p !in ChangedAttrs(prev.attrs, next.attrs, ["attrs"]) {
      var name, e := ChangedFrom(prev, next, p);
      NotRoot(next, prev.Collection(name), e, name, p);
    }
  }

  lemma {:induction false} NotRoot(m: Model, prevs: seq<Element>, n: Element, name: string, p: Pointer)
    requires m.Unique() && name in COLLECTIONS && n in m.Collection(name) && p in ChangedElement(prevs, n, name)
    ensures p != [] && p[0] != "attrs"
  {
    ChangedElementResolves(m, prevs, n, name, p);
  }

  // ---- what a patch leaves alone -----------------------------------------------------------------

  /** The fact p lies in reads the same in both models: the root attribute, the attribute or the member of
      the element; the element itself is in both. */
  predicate Untouched(prev: Model, next: Model, p: Pointer) {
    |p| >= 2
    && if p[0] == "attrs" then p[1] in prev.attrs && p[1] in next.attrs && prev.attrs[p[1]] == next.attrs[p[1]]
       else
         InBoth(prev, next, p[0], p[1])
         && (|p| > 2 ==>
               var was, now := MembersIn(prev, p[0], p[1]), MembersIn(next, p[0], p[1]);
               if p[2] != "attrs" then p[2] in was && p[2] in now && was[p[2]] == now[p[2]]
               else |p| > 3 ==>
                      var a, b := ObjectAt(was, "attrs"), ObjectAt(now, "attrs");
                      p[3] in a && p[3] in b && a[p[3]] == b[p[3]])
  }

  lemma {:induction false} UntouchedIsUnmarked(prev: Model, next: Model, p: Pointer)
    requires prev.Unique() && next.Unique() && Untouched(prev, next, p)
    ensures !AtOrBelowAny(p, Changed(prev, next))
  {
    UnchangedAt(prev, next, p);
    forall c | c in Changed(prev, next) ensures !(c <= p) {
      ChangedResolves(prev, next, c);
      UnchangedPrefix(Changed(prev, next), p, c);
    }
  }

  lemma {:induction false} UnchangedPrefix(changed: set<Pointer>, p: Pointer, c: Pointer)
    requires |p| >= 2 && c in changed && 2 <= |c| <= 4 && [p[0], p[1]] !in changed
    requires |c| > 2 ==> c[0] != "attrs" && (c[2] == "attrs" <==> |c| == 4)
    requires p[0] != "attrs" && |p| > 2 && p[2] != "attrs" ==> [p[0], p[1], p[2]] !in changed
    requires p[0] != "attrs" && |p| > 3 && p[2] == "attrs" ==> [p[0], p[1], "attrs", p[3]] !in changed
    ensures !(c <= p)
  {
    assert |c| == 2 ==> c == [c[0], c[1]];
    assert |c| == 3 ==> c == [c[0], c[1], c[2]];
    assert |c| == 4 ==> c == [c[0], c[1], c[2], c[3]];
  }

  lemma {:induction false} UnchangedAt(prev: Model, next: Model, p: Pointer)
    requires prev.Unique() && next.Unique() && Untouched(prev, next, p)
    ensures [p[0], p[1]] !in Changed(prev, next)
    ensures p[0] != "attrs" && |p| > 2 && p[2] != "attrs" ==> [p[0], p[1], p[2]] !in Changed(prev, next)
    ensures p[0] != "attrs" && |p| > 3 && p[2] == "attrs" ==> [p[0], p[1], "attrs", p[3]] !in Changed(prev, next)
  {
    if p[0] == "attrs" {
      RootChanges(prev, next, p[1]);
    } else {
      ElementChanges(prev, next, p[0], p[1]);
      if |p| > 2 && p[2] != "attrs" {
        MemberChanges(prev, next, p[0], p[1], p[2]);
      } else if |p| > 3 {
        AttributeChanges(prev, next, p[0], p[1], p[3]);
      }
    }
  }

  /** What a patch leaves alone keeps its claim: within the limit the stored claim that governs an untouched
      pointer governs it still. */
  lemma {:induction false} StampKeepsUntouched(prev: Model, next: Model, actor: string, at: int, limit: nat, after: Model,
                                               p: Pointer)
    requires Accepted(prev, next) && Stamped(prev, next, actor, at, limit, after)
    requires StaysBare(prev, next) || |Rewritten(prev, next, actor, at)| <= limit
    requires Resolves(next, p) && Untouched(prev, next, p) && Claim(prev.prov, p).Some?
    ensures SameClaimOption(Claim(after.prov, p), Claim(prev.prov, p))
  {
    UntouchedIsUnmarked(prev, next, p);
    PruneKeepsClaim(prev, next, p);
    RewrittenClaim(prev, next, actor, at, p);
    if !StaysBare(prev, next) {
      var m := next.(prov := Rewritten(prev, next, actor, at));
      var c :| Compacted(m, limit, c) && after == Synced(m.(prov := c));
      CompactWithinLimit(m, limit, c, p);
    }
  }

  /** What a patch adds or changes carries the actor's declaration: the entry names nothing but who declared it
      and when, to the second, and is dated no earlier. */
  lemma {:induction false} StampDeclaresChanged(prev: Model, next: Model, actor: string, at: int, limit: nat, after: Model,
                                                p: Pointer)
    requires Accepted(prev, next) && Stamped(prev, next, actor, at, limit, after) && !StaysBare(prev, next)
    requires |Rewritten(prev, next, actor, at)| <= limit && p in Changed(prev, next)
    ensures DeclaredSince(Claim(after.prov, p), actor, at)
  {
    RewrittenDeclares(prev, next, actor, at, p);
    var m := next.(prov := Rewritten(prev, next, actor, at));
    var c :| Compacted(m, limit, c) && after == Synced(m.(prov := c));
    CompactWithinLimit(m, limit, c, p);
    StaysDeclared(Claim(m.prov, p), Claim(c, p), actor, at);
  }

  /** An entry that names who declared it, no earlier than a second before at, and nothing else. */
  predicate DeclaredSince(c: Option<Entry>, actor: string, at: int) {
    c.Some? && c.value == Entry(Declared, "", "", "", "", None, None, 0, false, "", actor, c.value.declaredAt)
    && c.value.declaredAt.Some? && at - 1_000_000_000 < c.value.declaredAt.value
  }

  lemma StaysDeclared(x: Option<Entry>, y: Option<Entry>, actor: string, at: int)
    requires DeclaredSince(x, actor, at) && SameClaimOption(x, y) && CmpTime(x.value.declaredAt, y.value.declaredAt) <= 0
    ensures DeclaredSince(y, actor, at)
  {
    assert SameClaim(x.value, y.value);
  }

  lemma {:induction false} RewrittenDeclares(prev: Model, next: Model, actor: string, at: int, p: Pointer)
    requires Accepted(prev, next) && p in Changed(prev, next)
    ensures DeclaredSince(Claim(Rewritten(prev, next, actor, at), p), actor, at)
    ensures var c := Claim(Rewritten(prev, next, actor, at), p);
            c.value.declaredAt.value <= at && c.value.declaredAt.value % 1_000_000_000 == 0
  {
    ChangedResolves(prev, next, p);
    RewrittenClaim(prev, next, actor, at, p);
    IsBelowItself(p, Changed(prev, next));
    DeclaredNow(actor, at);
  }

  lemma IsBelowItself(p: Pointer, changed: set<Pointer>)
    requires p in changed
    ensures AtOrBelowAny(p, changed)
  {
    assert p <= p;
  }

  lemma DeclaredNow(actor: string, at: int)
    ensures var t := DeclaredBy(actor, at).declaredAt;
            DeclaredSince(Some(DeclaredBy(actor, at)), actor, at) && t.value <= at && t.value % 1_000_000_000 == 0
  {}

  // ---- what a pointer resolves to ----------------------------------------------------------------

  /** The kind a node's source stands for when nothing governs it: "declared" is an import, "observed" is
      observed, and everything else, an absent source too, is declared. */
  lemma {:induction false} NodeWithoutKey(m: Model, p: Pointer)
    requires |p| >= 2 && p[0] == "nodes" && Find(m.nodes, p[1]).Some?
    requires forall k | k in m.prov && k <= p :: k == []
    ensures var e, n := ProvenanceOf(m, p), Find(m.nodes, p[1]).value.members;
            match StringAt(n, "source")
            case "declared" => e == Entry(Imported, if StringAt(n, "external_ref") != "" then StringAt(n, "external_ref")
                                                    else "pre-1.1 import", "", "", "", None, None, 0, false, "", "", None)
            case "observed" => e == Entry(Observed, "", "", "", "", None, None, 0, false, "", "", None)
            case _ => e == Entry(Declared, "", "", "", "", None, None, 0, false, "", "", None)
  {}

  /** An edge nothing governs is as weak as the weaker of its two nodes, whatever those nodes are. */
  lemma {:induction false} EdgeWithoutKey(m: Model, p: Pointer)
    requires |p| >= 2 && p[0] == "edges" && Find(m.edges, p[1]).Some?
    requires forall k | k in m.prov && k <= p :: k == []
    ensures var e := Find(m.edges, p[1]).value.members;
            var from, to := ProvenanceOf(m, ["nodes", StringAt(e, "from")]), ProvenanceOf(m, ["nodes", StringAt(e, "to")]);
            var r := ProvenanceOf(m, p);
            (r.kind == Declared <==> from.kind == Declared || to.kind == Declared)
            && (r.kind == Observed <==> from.kind == Observed && to.kind == Observed)
            && (from.kind == to.kind ==> r.identifier == from.identifier)
            && (from.kind == r.kind != to.kind ==> r.identifier == from.identifier)
            && (to.kind == r.kind != from.kind ==> r.identifier == to.identifier)
            && r == Entry(r.kind, r.identifier, "", "", "", None, None, 0, false, "", "", None)
  {}

  /** The most specific key wins: the longest non-empty stored prefix decides every pointer but those of an
      edge without one. */
  lemma {:induction false} LongestKeyWins(m: Model, p: Pointer, k: Pointer)
    requires k in m.prov && k != [] && k <= p
    requires forall j | j in m.prov && j <= p :: |j| <= |k|
    ensures ProvenanceOf(m, p) == m.prov[k]
  {
    GovernorIsLongest(m.prov.Keys, p);
    var g := Governor(m.prov.Keys, p).value;
    assert k in m.prov.Keys && g in m.prov;
    assert k <= g && |g| <= |k|;
    assert g == k;
  }

  /** A pointer outside nodes and edges, or below an element that is not there, resolves declared when
      nothing governs it. */
  lemma {:induction false} OthersWithoutKey(m: Model, p: Pointer)
    requires forall k | k in m.prov && k <= p :: k == []
    requires |p| < 2 || (p[0] == "nodes" ==> Find(m.nodes, p[1]).None?)
    requires |p| < 2 || (p[0] == "edges" ==> Find(m.edges, p[1]).None?)
    ensures ProvenanceOf(m, p) == Entry(Declared, "", "", "", "", None, None, 0, false, "", "", None)
  {}

  /** Writing sources back: a node with its own key takes the source of that key's kind and nothing else
      changes; every other node is untouched. */
  lemma {:induction false} SyncWrites(m: Model, i: nat)
    requires i < |m.nodes|
    ensures var n, r := m.nodes[i], Synced(m).nodes[i];
            if ["nodes", n.id] !in m.prov then r == n
            else
              r.id == n.id
              && r.members == n.members["source" := Str(match m.prov[["nodes", n.id]].kind
                                                        case Declared => "design"
                                                        case Imported => "declared"
                                                        case Observed => "observed")]
  {}

  // ---- compaction --------------------------------------------------------------------------------

  /** Compaction leaves every claim as it reads, field by field, whenever some selection of the keys that reads
      the same fits the limit. */
  lemma {:induction false} CompactKeepsWhatFits(m: Model, limit: nat, after: Provenance, part: Provenance, p: Pointer)
    requires Compacted(m, limit, after) && [] !in m.prov && Resembles(m.prov, part) && |part| <= limit
    ensures SameFields(ProvenanceOf(m.(prov := after), p), ProvenanceOf(m, p))
  {
    if |m.prov| < 2 {
      assert m.(prov := after) == m;
    } else {
      var squeezed, order :| CompactedVia(m, limit, after, squeezed, order);
      FittingSqueezed(m, limit, squeezed, order, part);
      SameReading(m, squeezed, p);
    }
  }

  lemma {:induction false} FittingSqueezed(m: Model, limit: nat, squeezed: Provenance, order: seq<Pointer>, part: Provenance)
    requires [] !in m.prov && Squeezed(m.prov, squeezed) && Resembles(m.prov, part) && |part| <= limit
    ensures Shrunk(m.(prov := squeezed), limit, order) == squeezed
  {
    SqueezeIsLeast(m.prov, squeezed, part);
    SubsetSize(squeezed.Keys, part.Keys);
    SmallIsNotShrunk(m.(prov := squeezed), limit, order);
  }

  lemma {:induction false} SameReading(m: Model, squeezed: Provenance, p: Pointer)
    requires Squeezed(m.prov, squeezed)
    ensures SameFields(ProvenanceOf(m.(prov := squeezed), p), ProvenanceOf(m, p))
  {
    SqueezeKeepsClaims(m, squeezed, p);
  }

  /** Every field but the date of the declaration. */
  predicate SameFields(x: Entry, y: Entry) {
    x.kind == y.kind && x.identifier == y.identifier && x.version == y.version && x.hash == y.hash
    && x.importedBy == y.importedBy && x.importedAt == y.importedAt && x.fetchedAt == y.fetchedAt
    && x.cadenceDays == y.cadenceDays && x.signatureVerified == y.signatureVerified
    && x.lastSeenImport == y.lastSeenImport && x.declaredBy == y.declaredBy
  }

  /** Compaction leaves the keys of root attributes while the elements' own keys bring it within the limit. */
  lemma {:induction false} CompactKeepsRootAttrs(m: Model, limit: nat, after: Provenance, squeezed: Provenance,
                                                 order: seq<Pointer>, p: Pointer)
    requires CompactedVia(m, limit, after, squeezed, order) && p != [] && p[0] == "attrs"
    requires |FoldUpTo(m.(prov := squeezed), order, |order|)| <= limit
    ensures SameClaimOption(Claim(m.prov, p), Claim(after, p))
  {
    SqueezePreservesMeaning(m.prov, squeezed, p);
    ShrunkKeepsRoot(m.(prov := squeezed), limit, order, p);
  }

  lemma {:induction false} ShrunkKeepsRoot(m: Model, limit: nat, order: seq<Pointer>, p: Pointer)
    requires |FoldUpTo(m, order, |order|)| <= limit && p != [] && p[0] == "attrs"
    ensures Claim(Shrunk(m, limit, order), p) == Claim(m.prov, p)
  {
    AttrsUntouched(m, order, p);
  }

  /** A key that says what the nearest key above it says, whenever it was declared, goes; one that says anything else
      stays. */
  lemma {:induction false} RepeatedKeyGoes(before: Provenance, after: Provenance, k: Pointer, g: Pointer)
    requires Squeezed(before, after) && k in before && g in before && g != [] && g <= k && g != k
    requires forall j | j in before && j <= k && j != k :: j <= g
    ensures k in after <==> !SameFields(before[k], before[g])
  {
    NearestAbove(before.Keys, k, g);
    KeptUnlessRedundant(before, after, k);
    RedundantIff(before, k, g);
  }

  lemma RedundantIff(prov: Provenance, k: Pointer, g: Pointer)
    requires k in prov && |k| >= 2 && Governor(prov.Keys, Parent(k)) == Some(g)
    ensures Redundant(prov, k) <==> SameFields(prov[k], prov[g])
  {
    assert SameClaim(prov[k], prov[g]) <==> SameFields(prov[k], prov[g]);
  }

  lemma {:induction false} NearestAbove(keys: set<Pointer>, k: Pointer, g: Pointer)
    requires g in keys && g != [] && g <= k && g != k
    requires forall j | j in keys && j <= k && j != k :: j <= g
    ensures Governor(keys, Parent(k)) == Some(g)
  {
    GovernorIsLongest(keys, Parent(k));
    assert g <= Parent(k);
    var found := Governor(keys, Parent(k)).value;
    assert found <= k && found != k && g <= found;
    assert found <= g && |found| == |g|;
    assert found == g;
  }

  lemma {:induction false} KeptUnlessRedundant(before: Provenance, after: Provenance, k: Pointer)
    requires Squeezed(before, after) && k in before
    ensures k in after <==> !Redundant(before, k)
  {}

  /** Where a claim has a date, what governs the pointer after compaction within the limit has one no earlier. */
  lemma {:induction false} DateNeverEarlier(m: Model, limit: nat, after: Provenance, p: Pointer)
    requires Compacted(m, limit, after) && |m.prov| <= limit
    requires Claim(m.prov, p).Some? && Claim(m.prov, p).value.declaredAt.Some?
    ensures Claim(after, p).Some? && Claim(after, p).value.declaredAt.Some?
    ensures Claim(m.prov, p).value.declaredAt.value <= Claim(after, p).value.declaredAt.value
  {
    CompactWithinLimit(m, limit, after, p);
    DatedLater(Claim(m.prov, p), Claim(after, p));
  }

  lemma DatedLater(x: Option<Entry>, y: Option<Entry>)
    requires SameClaimOption(x, y) && x.Some? && CmpTime(x.value.declaredAt, y.value.declaredAt) <= 0
    ensures x.value.declaredAt.Some? ==> y.value.declaredAt.Some? && x.value.declaredAt.value <= y.value.declaredAt.value
  {}

  /** Folding a key below an element: the element's key takes the folded entry exactly when that is of a strictly
      weaker kind, and keeps what the element resolved to otherwise; the folded key goes. */
  lemma {:induction false} FoldTakesWeaker(m: Model, k: Pointer)
    requires k in m.prov && |k| > 2 && k[0] != "attrs"
    ensures var e, was, after := m.prov[k], ProvenanceOf(m, [k[0], k[1]]), FoldStep(m, k);
            var weaker := (e.kind == Declared && was.kind != Declared) || (e.kind == Imported && was.kind == Observed);
            [k[0], k[1]] in after && after[[k[0], k[1]]] == (if weaker then e else was)
            && k !in after
            && forall q | q != k && q != [k[0], k[1]] :: (q in after <==> q in m.prov) && (q in after ==> after[q] == m.prov[q])
  {
    assert k[..2] == [k[0], k[1]];
  }

  // ---- which keys resolve ------------------------------------------------------------------------

  /** A key resolves when it leads to an element, a root attribute, or a value inside one, members of the layout
      and those the server owns excluded; below arrays a token is an index in canonical decimals. */
  lemma {:induction false} KeyResolves(m: Model, coll: string, id: string, rest: seq<string>)
    requires coll in {"nodes", "edges", "groups", "identities"}
    ensures Resolves(m, [coll, id]) <==> exists e :: e in m.Collection(coll) && e.id == id
    ensures rest != [] && Find(m.Collection(coll), id).Some? ==>
              (Resolves(m, [coll, id] + rest) <==>
               rest[0] !in {"position", "positions", "size", "icon", "source", "id"}
               && rest[0] in Find(m.Collection(coll), id).value.members
               && Holds(Find(m.Collection(coll), id).value.members[rest[0]], rest[1..]))
    ensures rest != [] ==> (Resolves(m, ["attrs"] + rest) <==> rest[0] in m.attrs && Holds(m.attrs[rest[0]], rest[1..]))
    ensures !Resolves(m, []) && !Resolves(m, [coll])
  {
    assert ([coll, id] + rest)[2..] == rest;
    assert (["attrs"] + rest)[1..] == rest;
  }

  lemma {:induction false} PathHolds(v: Json, token: string, rest: seq<string>)
    ensures Holds(v, [])
    ensures v.Obj? ==> (Holds(v, [token] + rest) <==> token in v.members && Holds(v.members[token], rest))
    ensures v.Arr? ==> (Holds(v, [token] + rest) <==> exists i :: 0 <= i < |v.items| && token == Itoa(i) && Holds(v.items[i], rest))
    ensures !v.Obj? && !v.Arr? ==> !Holds(v, [token] + rest)
  {
    assert ([token] + rest)[1..] == rest;
    if v.Arr? {
      var i := IndexOf(token, |v.items|);
      forall j, k: int | 0 <= j < |v.items| && 0 <= k < |v.items| && Itoa(j) == token && Itoa(k) == token ensures j == k {
        ItoaInjective(j, k);
      }
    }
  }

  // ---- models without a sidecar ------------------------------------------------------------------

  /** Without a sidecar, and with no node that claims more than design, a patch needs none. */
  lemma {:induction false} DesignStaysBare(prev: Model, next: Model)
    requires prev.prov == map[] && next.prov == map[]
    requires forall n | n in prev.nodes + next.nodes :: SourceOf(n) !in {"declared", "observed"}
    ensures StaysBare(prev, next)
  {
    forall p ensures KindOf(prev, p) == Declared {
      NothingGoverns(p);
      if Derived(prev, p) {
        var e := Find(prev.edges, p[1]).value;
        NothingGoverns(FromOf(e));
        NothingGoverns(ToOf(e));
      }
    }
  }

  /** Without a sidecar a patch needs one when it changes a value of a node that claims more than design. */
  lemma {:induction false} ChangeNeedsSidecar(prev: Model, next: Model, id: string, p: Pointer)
    requires prev.prov == map[] && Find(prev.nodes, id).Some?
    requires SourceOf(Find(prev.nodes, id).value) in {"declared", "observed"}
    requires p in Changed(prev, next) && ["nodes", id] <= p
    ensures !StaysBare(prev, next)
  {
    ClaimsAboveDesign(prev, id, p);
  }

  lemma {:induction false} ClaimsAboveDesign(m: Model, id: string, p: Pointer)
    requires m.prov == map[] && Find(m.nodes, id).Some? && ["nodes", id] <= p
    requires SourceOf(Find(m.nodes, id).value) in {"declared", "observed"}
    ensures KindOf(m, p) != Declared
  {
    NothingGoverns(p);
    assert p[0] == ["nodes", id][0] && p[1] == ["nodes", id][1];
  }

  /** And when it changes what such a node claims. */
  lemma {:induction false} SourceNeedsSidecar(prev: Model, next: Model, id: string)
    requires Find(prev.nodes, id).Some? && Find(next.nodes, id).Some?
    requires SourceOf(Find(prev.nodes, id).value) in {"declared", "observed"}
    requires SourceOf(Find(next.nodes, id).value) != SourceOf(Find(prev.nodes, id).value)
    ensures !StaysBare(prev, next)
  {
    assert Find(next.nodes, id).value in next.nodes;
  }
}
