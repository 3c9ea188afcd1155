/** What an upgrade hides, read off the given document alone (model/migrate/migrate.go:223-246): the later
    passes overwrite on the rewritten documents exactly what they would overwrite on the given one. */
module Foreseen {
  import opened Options
  import opened Json
  import opened Pointers
  import opened Passes
  import opened Normalizing
  import opened Migrating
  import opened Upgrades
  import opened HiddenKeys

  function Created(mint: Minter, d: Doc): map<string, string> { MintAll(mint, Used(d), Items(d, "nodes")).created }

  function Assigning(mint: Minter, d: Doc): Pass { AssignPass(Created(mint, d)) }

  function Hosting(v: Texts, d: Doc): Pass { HostPass(v, Hosts(Items(d, "nodes"))) }

  /** No stored key of the document lies below a value that a pass of the steps from FROM[i] on overwrites,
      every pass read on the document itself. */
  predicate NoneInTheWay(v: Texts, mint: Minter, i: nat, d: Doc) {
    i >= 4
    || (NoneLost(EdgePass(v), d) && NoneLost(NodePass(v), d)
        && (i <= 1 ==> NoneLost(Assigning(mint, d), d)) && (i <= 2 ==> NoneLost(Hosting(v, d), d)))
  }

  // ---- documents that agree on what later passes read --------------------------------------------

  /** The key lies below a note or an identity reference of a node. */
  predicate Written(k: Pointer) {
    |k| > 4 && k[0] == "nodes" && k[2] == "attrs" && k[3] in WRITTEN
  }

  /** The note holds something else than text. */
  predicate HeldNote(e: Members) {
    MIGRATED_FROM in AttrsOf(e) && !AttrsOf(e)[MIGRATED_FROM].Str?
  }

  predicate Tracks(e: Members, f: Members) {
    TypeOf(f) == TypeOf(e) && StringAt(f, "id") == StringAt(e, "id") && HostRef(f) == HostRef(e)
  }

  /** The node of the key has the same host, and still holds what its note held. */
  predicate TracksAt(d: Doc, n: Doc, k: Pointer)
    requires |k| > 3
  {
    var e, f := ElementOf(Items(d, "nodes"), k[1]), ElementOf(Items(n, "nodes"), k[1]);
    (e.Some? <==> f.Some?)
    && (e.Some? && f.Some? ==> Tracks(e.value, f.value) && (k in Keys(d) && k[3] == MIGRATED_FROM && HeldNote(e.value) ==> HeldNote(f.value)))
  }

  ghost predicate Tracked(d: Doc, n: Doc) {
    Hosts(Items(n, "nodes")) == Hosts(Items(d, "nodes"))
    && forall k | Written(k) :: (k in Keys(n) <==> k in Keys(d)) && TracksAt(d, n, k)
  }

  lemma {:induction false} TrackedTwice(d: Doc, m: Doc, n: Doc)
    requires Tracked(d, m) && Tracked(m, n)
    ensures Tracked(d, n)
  {
    forall k | Written(k) ensures (k in Keys(n) <==> k in Keys(d)) && TracksAt(d, n, k) {
      assert TracksAt(d, m, k) && TracksAt(m, n, k);
    }
  }

  lemma {:induction false} SameIsTracked(d: Doc, n: Doc)
    requires Items(n, "nodes") == Items(d, "nodes") && Keys(n) == Keys(d)
    ensures Tracked(d, n)
  {}

  /** A key below a note or an identity reference is never dropped. */
  lemma {:induction false} WrittenKept(p: Pass, d: Doc, k: Pointer)
    requires Burying(p) && Written(k)
    ensures k in Keys(Applied(p, d)) <==> k in Keys(d)
  {
    if p.coll in d.members && d.members[p.coll].Arr? {
      var items := Items(d, p.coll);
      DroppedKeys(d.prov, Drops(p, items), d, Applied(p, d));
      if UnderAny(Drops(p, items), k) {
        var f, r := DropsAre(p, items, k);
        assert Spares(p, f);
        AddressTail(Address(p, f), r, k);
      }
    }
  }

  lemma {:induction false} EdgesTracked(v: Texts, d: Doc)
    requires Sane(v)
    ensures Tracked(d, Applied(EdgePass(v), d))
  {
    EdgesBury(v);
    OtherItems(EdgePass(v), d, "nodes");
    forall k | Written(k) ensures k in Keys(Applied(EdgePass(v), d)) <==> k in Keys(d) {
      WrittenKept(EdgePass(v), d, k);
    }
  }

  ghost predicate TracksUnder(p: Pass, e: Members) { Tracks(e, p.rewrite(e)) }

  /** The pass leaves the note of the key's node alone. */
  predicate KeepsNote(p: Pass, d: Doc, k: Pointer)
    requires |k| > 1
  {
    var e := ElementOf(Items(d, "nodes"), k[1]);
    e.Some? && HeldNote(e.value) ==> HeldNote(p.rewrite(e.value))
  }

  lemma {:induction false} HostsUnder(p: Pass, items: seq<Json>)
    requires forall e :: TracksUnder(p, e)
    ensures Hosts(ItemsAfter(p, items)) == Hosts(items)
  {
    if items != [] {
      var last := items[|items| - 1];
      HostsUnder(p, items[..|items| - 1]);
      assert ItemsAfter(p, items)[..|items| - 1] == ItemsAfter(p, items[..|items| - 1]);
      assert last.Obj? ==> TracksUnder(p, last.members);
    }
  }

  lemma {:induction false} PassTracked(p: Pass, d: Doc)
    requires Burying(p) && p.coll == "nodes" && forall e :: TracksUnder(p, e)
    requires forall k | k in Keys(d) && Written(k) && k[3] == MIGRATED_FROM :: KeepsNote(p, d, k)
    ensures Tracked(d, Applied(p, d))
  {
    HostsUnder(p, Items(d, "nodes"));
    forall k | Written(k) ensures (k in Keys(Applied(p, d)) <==> k in Keys(d)) && TracksAt(d, Applied(p, d), k) {
      WrittenKept(p, d, k);
      ElementAfter(p, Items(d, "nodes"), k[1]);
      var e := ElementOf(Items(d, "nodes"), k[1]);
      assert e.Some? ==> TracksUnder(p, e.value);
      assert k in Keys(d) && k[3] == MIGRATED_FROM ==> KeepsNote(p, d, k);
    }
  }

  lemma {:induction false} NodeTracks(v: Texts, e: Members)
    requires Sane(v)
    ensures TracksUnder(NodePass(v), e)
    ensures NodeLost(v, e) == {} && HeldNote(e) ==> HeldNote(NodeRewrite(v, e))
  {
    if HasAttrs(e) {
      HostedOnStays(v, TypeOf(e), AttrsOf(e));
      if HeldNote(e) {
        WrittenStays(v, TypeOf(e), AttrsOf(e), MIGRATED_FROM);
        NodeAttrKeeps(v, TypeOf(e), AttrsOf(e), MIGRATED_FROM);
      }
    }
  }

  /** The rest of a written key lies below its note or its identity reference. */
  lemma {:induction false} WrittenBelow(k: Pointer)
    requires |k| > 4 && k[2] == "attrs"
    ensures ["attrs", k[3]] < k[2..]
    ensures forall w :: BelowAny({["attrs", w]}, k[2..]) <==> w == k[3]
  {
    forall w ensures BelowAny({["attrs", w]}, k[2..]) <==> w == k[3] {
      BelowOne(["attrs", w], k[2..]);
      PairPrefix(w, k[2..]);
    }
    BelowOne(["attrs", k[3]], k[2..]);
  }

  lemma {:induction false} NodesTracked(v: Texts, d: Doc)
    requires Sane(v) && NoneLost(NodePass(v), d)
    ensures Tracked(d, Applied(NodePass(v), d))
  {
    var p := NodePass(v);
    NodesBury(v);
    forall e ensures TracksUnder(p, e) {
      NodeTracks(v, e);
    }
    forall k | k in Keys(d) && Written(k) && k[3] == MIGRATED_FROM ensures KeepsNote(p, d, k) {
      WrittenBelow(k);
      assert !Loses(p, d, k);
      var e := ElementOf(Items(d, "nodes"), k[1]);
      if e.Some? {
        NodeTracks(v, e.value);
      }
    }
    PassTracked(p, d);
  }

  lemma {:induction false} AssignTracked(created: map<string, string>, d: Doc)
    ensures Tracked(d, Applied(AssignPass(created), d))
  {
    var p := AssignPass(created);
    AssignBuries(created);
    forall e ensures TracksUnder(p, e) && (HeldNote(e) ==> HeldNote(p.rewrite(e))) {}
    forall k | k in Keys(d) && Written(k) ensures KeepsNote(p, d, k) {}
    PassTracked(p, d);
  }

  lemma {:induction false} NormalizeTracked(v: Texts, d: Doc)
    requires Sane(v) && NoneLost(NodePass(v), Applied(EdgePass(v), d))
    ensures Tracked(d, Normalized(v, d))
  {
    EdgesTracked(v, d);
    NodesTracked(v, Applied(EdgePass(v), d));
    TrackedTwice(d, Applied(EdgePass(v), d), Normalized(v, d));
  }

  // ---- the hosts, foreseen -----------------------------------------------------------------------

  lemma {:induction false} HostLossAt(v: Texts, o: Doc, n: Doc, k: Pointer)
    requires Tracked(o, n) && k in Keys(o) && KeyResolves(o, k)
    ensures Loses(Hosting(v, n), n, k) <==> Loses(Hosting(v, o), o, k)
  {
    if Written(k) && k[3] == MIGRATED_FROM {
      WrittenBelow(k);
      assert TracksAt(o, n, k);
      var e := ElementOf(Items(o, "nodes"), k[1]).value;
      if HasAttrs(e) {
        HoldsAttr(e, k[2..]);
        assert HeldNote(e);
      } else {
        NoTextPath(e, k[2..]);
      }
    } else {
      NotWritten(k);
    }
  }

  /** A key below neither the note nor the identity reference of a node. */
  lemma {:induction false} NotWritten(k: Pointer)
    requires !(Written(k) && k[3] == MIGRATED_FROM)
    ensures k != [] && k[0] == "nodes" && |k| > 2 ==> !BelowAny({["attrs", MIGRATED_FROM]}, k[2..])
  {
    if k != [] && k[0] == "nodes" && |k| > 2 {
      BelowOne(["attrs", MIGRATED_FROM], k[2..]);
      PairPrefix(MIGRATED_FROM, k[2..]);
    }
  }

  lemma {:induction false} HostsForeseen(v: Texts, o: Doc, n: Doc)
    requires SoundDoc(o) && Tracked(o, n) && Keys(n) <= Keys(o)
    ensures NoneLost(Hosting(v, n), n) <==> NoneLost(Hosting(v, o), o)
  {
    forall k | k in Keys(o) ensures Loses(Hosting(v, n), n, k) <==> Loses(Hosting(v, o), o, k) {
      HostLossAt(v, o, n, k);
    }
    forall k | k in Keys(o) && Loses(Hosting(v, o), o, k) ensures k in Keys(n) {
      if !(Written(k) && k[3] == MIGRATED_FROM) {
        NotWritten(k);
      }
    }
  }

  // ---- the identities, foreseen ------------------------------------------------------------------

  lemma {:induction false} CreatedHas(mint: Minter, d: Doc, id: string)
    requires MintsFree(mint) && ElementOf(Items(d, "nodes"), id).Some?
    ensures var e := ElementOf(Items(d, "nodes"), id).value; Eligible(e) ==> ValueOf(e) in Created(mint, d)
  {
    var e := ElementOf(Items(d, "nodes"), id).value;
    MintAllKeeps(mint, Used(d), Items(d, "nodes"));
    var i := ElementIndex(Items(d, "nodes"), id);
    assert Eligible(e) ==> HasValue(Items(d, "nodes"), ValueOf(e));
  }

  lemma {:induction false} ElementIndex(items: seq<Json>, id: string) returns (i: nat)
    requires ElementOf(items, id).Some?
    ensures i < |items| && items[i] == Obj(ElementOf(items, id).value)
  {
    var last := items[|items| - 1];
    if last.Obj? && IdOf(last.members) == Some(id) {
      i := |items| - 1;
    } else {
      i := ElementIndex(items[..|items| - 1], id);
    }
  }

  /** Normalize changes neither who is eligible nor the values. */
  lemma {:induction false} StillEligible(v: Texts, e: Members)
    requires Sane(v)
    ensures Eligible(NodeRewrite(v, e)) <==> Eligible(e)
  {
    if HasAttrs(e) && TypeOf(e) == "agent" {
      AgentKeeps(v, AttrsOf(e), "identity");
      AgentKeeps(v, AttrsOf(e), "identity_id");
    }
  }

  /** Normalize changes no other attribute of an agent than the narrowed ones, the authn list and the note. */
  lemma {:induction false} AgentKeeps(v: Texts, m: Members, k: string)
    requires k !in {"egress_policy", "kind", "authn", MIGRATED_FROM}
    ensures Agree(m, NodeAttrs(v, "agent", m), k)
  {
    var plain, narrowed := Plain(v, "agent", m), Narrowed(v, "agent", m);
    NotedAllIs(v, plain, RewriteNotes("agent", m));
    assert Agree(m, plain, k);
    assert k in plain - {MIGRATED_FROM} <==> k in narrowed - {MIGRATED_FROM};
    assert Agree(plain, narrowed, k);
  }

  lemma {:induction false} IdentityLossAt(v: Texts, mint: Minter, d: Doc, k: Pointer)
    requires Sane(v) && MintsFree(mint)
    ensures Loses(Assigning(mint, Normalized(v, d)), Normalized(v, d), k) <==> Loses(Assigning(mint, d), d, k)
  {
    if |k| > 2 && k[0] == "nodes" {
      var mid, n := Applied(EdgePass(v), d), Normalized(v, d);
      OtherItems(EdgePass(v), d, "nodes");
      NodePassBehaves(v);
      ElementAfter(NodePass(v), Items(mid, "nodes"), k[1]);
      var e := ElementOf(Items(d, "nodes"), k[1]);
      if e.Some? {
        StillEligible(v, e.value);
        CreatedHas(mint, d, k[1]);
        CreatedHas(mint, n, k[1]);
      }
    }
  }

  /** What the identities overwrite is a written key. */
  lemma {:induction false} IdentityLossIsWritten(mint: Minter, d: Doc, n: Doc, k: Pointer)
    requires Loses(Assigning(mint, n), d, k)
    ensures Written(k)
  {
    BelowOne(["attrs", "identity_id"], k[2..]);
    PairPrefix("identity_id", k[2..]);
  }

  lemma {:induction false} NormalKeys(v: Texts, d: Doc)
    ensures Keys(Normalized(v, d)) <= Keys(d)
  {
    MidKeys(EdgePass(v), d);
    MidKeys(NodePass(v), Applied(EdgePass(v), d));
  }

  lemma {:induction false} IdentitiesForeseen(v: Texts, mint: Minter, d: Doc)
    requires Sane(v) && MintsFree(mint)
    ensures NoneLost(Assigning(mint, Normalized(v, d)), Normalized(v, d)) <==> NoneLost(Assigning(mint, d), d)
  {
    var mid, n := Applied(EdgePass(v), d), Normalized(v, d);
    EdgesBury(v);
    NodesBury(v);
    NormalKeys(v, d);
    forall k | k in Keys(d) ensures Loses(Assigning(mint, n), n, k) <==> Loses(Assigning(mint, d), d, k) {
      IdentityLossAt(v, mint, d, k);
    }
    forall k | k in Keys(d) && Loses(Assigning(mint, d), d, k) ensures k in Keys(n) {
      IdentityLossIsWritten(mint, d, d, k);
      WrittenKept(EdgePass(v), d, k);
      WrittenKept(NodePass(v), mid, k);
    }
  }

  // ---- nothing left to normalise -----------------------------------------------------------------

  predicate QuietNode(v: Texts, e: Members) { RewriteNotes(TypeOf(e), AttrsOf(e)) == [] }

  predicate QuietAt(v: Texts, d: Doc, id: string) {
    var n, e := ElementOf(Items(d, "nodes"), id), ElementOf(Items(d, "edges"), id);
    (n.Some? ==> QuietNode(v, n.value)) && (e.Some? ==> !StrayProtocol(v, e.value))
  }

  ghost predicate Quiet(v: Texts, d: Doc) { forall id :: QuietAt(v, d, id) }

  lemma {:induction false} QuietLosesNothing(v: Texts, d: Doc)
    requires Quiet(v, d)
    ensures NoneLost(EdgePass(v), d) && NoneLost(NodePass(v), Applied(EdgePass(v), d))
  {
    OtherItems(EdgePass(v), d, "nodes");
    forall k ensures !Loses(EdgePass(v), d, k) && !Loses(NodePass(v), Applied(EdgePass(v), d), k) {
      assert |k| > 2 ==> QuietAt(v, d, k[1]);
    }
  }

  lemma {:induction false} NormalIsQuiet(v: Texts, d: Doc)
    requires Sane(v)
    ensures Quiet(v, Normalized(v, d))
  {
    var mid := Applied(EdgePass(v), d);
    EdgePassBehaves(v);
    NodePassBehaves(v);
    OtherItems(NodePass(v), mid, "edges");
    forall id ensures QuietAt(v, Normalized(v, d), id) {
      ElementAfter(EdgePass(v), Items(d, "edges"), id);
      ElementAfter(NodePass(v), Items(mid, "nodes"), id);
      var n, e := ElementOf(Items(mid, "nodes"), id), ElementOf(Items(d, "edges"), id);
      if n.Some? {
        NodeQuiets(v, n.value);
      }
      if e.Some? {
        EdgeQuiets(v, e.value);
      }
    }
  }

  lemma {:induction false} NodeQuiets(v: Texts, e: Members)
    requires Sane(v)
    ensures QuietNode(v, NodeRewrite(v, e))
  {
    if HasAttrs(e) {
      NodeSettles(v, TypeOf(e), AttrsOf(e));
    } else {
      assert AttrsOf(e) == map[];
    }
  }

  lemma {:induction false} EdgeQuiets(v: Texts, e: Members)
    requires Sane(v)
    ensures !StrayProtocol(v, EdgeRewrite(v, e))
  {
    if StrayProtocol(v, e) {
      assert SaneProtocol(v, e["protocol"].s);
    }
  }

  ghost predicate KeepsQuiet(v: Texts, p: Pass, e: Members) { QuietNode(v, e) ==> QuietNode(v, p.rewrite(e)) }

  lemma {:induction false} PassKeepsQuiet(v: Texts, p: Pass, d: Doc)
    requires Quiet(v, d) && WellBehaved(p) && p.coll == "nodes" && forall e :: KeepsQuiet(v, p, e)
    ensures Quiet(v, Applied(p, d))
  {
    OtherItems(p, d, "edges");
    forall id ensures QuietAt(v, Applied(p, d), id) {
      ElementAfter(p, Items(d, "nodes"), id);
      assert QuietAt(v, d, id);
      var n := ElementOf(Items(d, "nodes"), id);
      assert n.Some? ==> KeepsQuiet(v, p, n.value);
    }
  }

  lemma {:induction false} AssignKeepsQuiet(v: Texts, created: map<string, string>, d: Doc)
    requires Quiet(v, d)
    ensures Quiet(v, Applied(AssignPass(created), d))
  {
    var p := AssignPass(created);
    AssignPassBehaves(created);
    forall e ensures KeepsQuiet(v, p, e) {
      EntriesDepend(TypeOf(e), AttrsOf(e), AttrsOf(p.rewrite(e)));
    }
    PassKeepsQuiet(v, p, d);
  }

  lemma {:induction false} HostsKeepQuiet(v: Texts, hosts: set<string>, d: Doc)
    requires Quiet(v, d)
    ensures Quiet(v, Applied(HostPass(v, hosts), d))
  {
    var p := HostPass(v, hosts);
    HostPassBehaves(v, hosts);
    forall e ensures KeepsQuiet(v, p, e) {
      EntriesDepend(TypeOf(e), AttrsOf(e), AttrsOf(p.rewrite(e)));
    }
    PassKeepsQuiet(v, p, d);
  }

  lemma {:induction false} SameIsQuiet(v: Texts, d: Doc, n: Doc)
    requires Quiet(v, d) && Items(n, "nodes") == Items(d, "nodes") && Items(n, "edges") == Items(d, "edges")
    ensures Quiet(v, n)
  {
    forall id ensures QuietAt(v, n, id) {
      assert QuietAt(v, d, id);
    }
  }

  // ---- the steps, foreseen -----------------------------------------------------------------------

  /** The new identities and the version change neither nodes nor edges. */
  lemma {:induction false} PointedItems(mint: Minter, n: Doc)
    ensures var pointed, next := Applied(Assigning(mint, n), n), AtVersion(IdentitiesMigrated(mint, n), "1.1");
            Items(next, "nodes") == Items(pointed, "nodes") && Items(next, "edges") == Items(pointed, "edges")
            && Keys(next) == Keys(pointed)
  {}

  /** The document after the identities: quiet, and tracking the one before. */
  lemma {:induction false} AfterIdentities(v: Texts, mint: Minter, n: Doc)
    requires Quiet(v, n)
    ensures var next := AtVersion(IdentitiesMigrated(mint, n), "1.1");
            Quiet(v, next) && Tracked(n, next) && Keys(next) <= Keys(n)
  {
    PointedItems(mint, n);
    AfterPointing(v, mint, n, AtVersion(IdentitiesMigrated(mint, n), "1.1"));
  }

  lemma {:induction false} AfterPointing(v: Texts, mint: Minter, n: Doc, next: Doc)
    requires Quiet(v, n)
    requires var pointed := Applied(Assigning(mint, n), n);
             Items(next, "nodes") == Items(pointed, "nodes") && Items(next, "edges") == Items(pointed, "edges")
             && Keys(next) == Keys(pointed)
    ensures Quiet(v, next) && Tracked(n, next) && Keys(next) <= Keys(n)
  {
    var created := Created(mint, n);
    var pointed := Applied(AssignPass(created), n);
    MidKeys(AssignPass(created), n);
    AssignKeepsQuiet(v, created, n);
    AssignTracked(created, n);
    SameIsQuiet(v, pointed, next);
    SameIsTracked(pointed, next);
    TrackedTwice(n, pointed, next);
  }

  lemma {:induction false} AfterFirst(v: Texts, mint: Minter, d: Doc)
    requires Sane(v) && NoneLost(NodePass(v), Applied(EdgePass(v), d))
    ensures Quiet(v, V10to11(v, mint, d)) && Tracked(d, V10to11(v, mint, d)) && Keys(V10to11(v, mint, d)) <= Keys(d)
  {
    var n := Normalized(v, d);
    NormalIsQuiet(v, d);
    NormalizeTracked(v, d);
    NormalKeys(v, d);
    AfterIdentities(v, mint, n);
    TrackedTwice(d, n, V10to11(v, mint, d));
  }

  lemma {:induction false} AfterHosts(v: Texts, d: Doc)
    requires Sane(v)
    ensures Quiet(v, V11to12(v, d))
  {
    var n := Normalized(v, d);
    NormalIsQuiet(v, d);
    HostsKeepQuiet(v, Hosts(Items(n, "nodes")), n);
    SameIsQuiet(v, HostsDropped(v, n), V11to12(v, d));
  }

  lemma {:induction false} QuietLast(v: Texts, mint: Minter, d: Doc)
    requires Quiet(v, d)
    ensures NoneHiddenFrom(v, mint, 3, d)
  {
    QuietLosesNothing(v, d);
    assert NoneHiddenFrom(v, mint, 4, StepOf(v, mint, 3, d));
  }

  /** From 1.1 on, for a document that tracks the given one. */
  lemma {:induction false} FromHosts(v: Texts, mint: Minter, o: Doc, d: Doc)
    requires Sane(v) && SoundDoc(o) && Tracked(o, d) && Keys(d) <= Keys(o)
    ensures NoneHiddenFrom(v, mint, 2, d)
            <==> NoneLost(EdgePass(v), d) && NoneLost(NodePass(v), Applied(EdgePass(v), d)) && NoneLost(Hosting(v, o), o)
  {
    var n := Normalized(v, d);
    AfterHosts(v, d);
    QuietLast(v, mint, V11to12(v, d));
    if NoneLost(NodePass(v), Applied(EdgePass(v), d)) {
      NormalizeTracked(v, d);
      NormalKeys(v, d);
      TrackedTwice(o, d, n);
      HostsForeseen(v, o, n);
    }
    assert StepOf(v, mint, 2, d) == V11to12(v, d);
  }

  lemma {:induction false} FromIdentities(v: Texts, mint: Minter, d: Doc)
    requires Sane(v) && MintsFree(mint) && SoundDoc(d)
    ensures NoneHiddenFrom(v, mint, 1, d) <==> NoneInTheWay(v, mint, 1, d)
  {
    var next := V10to11(v, mint, d);
    SameLosses(EdgePass(v), NodePass(v), d);
    IdentitiesForeseen(v, mint, d);
    if NoneLost(NodePass(v), Applied(EdgePass(v), d)) {
      AfterFirst(v, mint, d);
      QuietLosesNothing(v, next);
      FromHosts(v, mint, d, next);
    }
    assert StepOf(v, mint, 1, d) == next;
  }

  lemma {:induction false} FromUnversioned(v: Texts, mint: Minter, d: Doc)
    requires Sane(v) && MintsFree(mint) && SoundDoc(d)
    ensures NoneHiddenFrom(v, mint, 0, d) <==> NoneInTheWay(v, mint, 0, d)
  {
    var next := AtVersion(d, "1.0");
    VersionHides(d, "1.0", []);
    FromIdentities(v, mint, next);
    VersionLoses(EdgePass(v), d, "1.0");
    VersionLoses(NodePass(v), d, "1.0");
    VersionItems(d, "1.0", "nodes");
    VersionUses(d, "1.0");
    VersionLoses(Assigning(mint, d), d, "1.0");
    VersionLoses(Hosting(v, d), d, "1.0");
    assert StepOf(v, mint, 0, d) == next;
  }

  lemma VersionUses(d: Doc, version: string)
    ensures Used(AtVersion(d, version)) == Used(d)
  {
    VersionItems(d, version, "nodes");
    VersionItems(d, version, "edges");
    VersionItems(d, version, "groups");
    VersionItems(d, version, "findings");
    VersionItems(d, version, "identities");
  }

  lemma {:induction false} VersionLoses(p: Pass, d: Doc, version: string)
    requires p.coll != FIELD
    ensures NoneLost(p, AtVersion(d, version)) <==> NoneLost(p, d)
  {
    VersionItems(d, version, p.coll);
    forall k ensures Loses(p, AtVersion(d, version), k) <==> Loses(p, d, k) {}
  }

  lemma {:induction false} StepsForeseen(v: Texts, mint: Minter, i: nat, d: Doc)
    requires Sane(v) && MintsFree(mint) && i <= 4 && SoundDoc(d)
    ensures NoneHiddenFrom(v, mint, i, d) <==> NoneInTheWay(v, mint, i, d)
  {
    SameLosses(EdgePass(v), NodePass(v), d);
    if i == 0 {
      FromUnversioned(v, mint, d);
    } else if i == 1 {
      FromIdentities(v, mint, d);
    } else if i == 2 {
      SameIsTracked(d, d);
      FromHosts(v, mint, d, d);
    } else if i == 3 {
      assert NoneHiddenFrom(v, mint, 4, StepOf(v, mint, 3, d));
    }
  }

  /** Exactly when an upgrade keeps a sound sidecar sound, read off the document before it: no stored key
      lies below a value that a pass of its steps overwrites there. */
  lemma {:induction false} UpgradeSoundnessForeseen(v: Texts, mint: Minter, d: Doc)
    requires Sane(v) && MintsFree(mint) && SoundDoc(d) && Upgraded(v, mint, d).Ok?
    ensures SoundDoc(Upgraded(v, mint, d).value) <==> NoneInTheWay(v, mint, StartOf(VersionOf(d).value).value, d)
  {
    UpgradeKeepsSoundIff(v, mint, d);
    StepsForeseen(v, mint, StartOf(VersionOf(d).value).value, d);
  }

  // ---- a condition that names no pass ------------------------------------------------------------

  /** The key lies below the note or the identity reference of a node or an edge. */
  predicate BelowWritten(k: Pointer) {
    |k| > 4 && k[0] in {"nodes", "edges"} && k[2] == "attrs" && k[3] in WRITTEN
  }

  /** The key lies below attrs of an edge that are not an object. */
  predicate OnPlainAttrs(d: Doc, k: Pointer) {
    |k| > 3 && k[0] == "edges" && k[2] == "attrs"
    && ElementOf(Items(d, "edges"), k[1]).Some? && !HasAttrs(ElementOf(Items(d, "edges"), k[1]).value)
  }

  /** No stored key lies below a note, an identity reference, or attrs of an edge that are not an object. */
  predicate Tame(d: Doc) {
    forall k | k in Keys(d) :: !BelowWritten(k) && !OnPlainAttrs(d, k)
  }

  /** A pass overwrites only the note, the identity reference, and the attrs of an edge that has none. */
  ghost predicate Gentle(p: Pass) {
    forall e :: LosesLittle(p, e)
  }

  ghost predicate LosesLittle(p: Pass, e: Members) {
    forall l | l in p.lost(e) ::
      l == ["attrs", MIGRATED_FROM] || l == ["attrs", "identity_id"] || (l == ["attrs"] && p.coll == "edges" && !HasAttrs(e))
  }

  lemma {:induction false} MemberBelow(k: Pointer, member: string)
    requires |k| > 2 && ["attrs", member] < k[2..]
    ensures |k| > 4 && k[2] == "attrs" && k[3] == member
  {
    assert k[2..][..2] == ["attrs", member];
    assert k[2..][0] == k[2] && k[2..][1] == k[3];
  }

  lemma {:induction false} PlainBelow(k: Pointer)
    requires |k| > 2 && ["attrs"] < k[2..]
    ensures |k| > 3 && k[2] == "attrs"
  {
    assert k[2..][..1] == ["attrs"];
  }

  lemma {:induction false} TameLosesNothing(p: Pass, d: Doc)
    requires Gentle(p) && Tame(d) && p.coll in {"nodes", "edges"}
    ensures NoneLost(p, d)
  {
    forall k | k in Keys(d) && |k| > 2 && k[0] == p.coll && ElementOf(Items(d, p.coll), k[1]).Some?
      ensures !BelowAny(p.lost(ElementOf(Items(d, p.coll), k[1]).value), k[2..])
    {
      var e := ElementOf(Items(d, p.coll), k[1]).value;
      assert LosesLittle(p, e);
      forall l | l in p.lost(e) ensures !(l < k[2..]) {
        if l == ["attrs"] {
          assert l < k[2..] ==> OnPlainAttrs(d, k) by {
            if l < k[2..] {
              PlainBelow(k);
            }
          }
        } else {
          assert l < k[2..] ==> BelowWritten(k) by {
            if l < k[2..] {
              MemberBelow(k, l[1]);
            }
          }
        }
      }
    }
  }

  lemma {:induction false} AllGentle(v: Texts, hosts: set<string>, created: map<string, string>)
    ensures Gentle(EdgePass(v)) && Gentle(NodePass(v)) && Gentle(HostPass(v, hosts)) && Gentle(AssignPass(created))
  {
    forall e ensures LosesLittle(EdgePass(v), e) {}
    forall e ensures LosesLittle(NodePass(v), e) {}
    forall e ensures LosesLittle(HostPass(v, hosts), e) {}
    forall e ensures LosesLittle(AssignPass(created), e) {}
  }

  lemma {:induction false} TameIsClear(v: Texts, mint: Minter, i: nat, d: Doc)
    requires Tame(d)
    ensures NoneInTheWay(v, mint, i, d)
  {
    AllGentle(v, Hosts(Items(d, "nodes")), Created(mint, d));
    TameLosesNothing(EdgePass(v), d);
    TameLosesNothing(NodePass(v), d);
    TameLosesNothing(Assigning(mint, d), d);
    TameLosesNothing(Hosting(v, d), d);
  }

  /** Upgrading a tame document of any version keeps its sidecar sound. */
  lemma {:induction false} UpgradeKeepsSound(v: Texts, mint: Minter, d: Doc)
    requires Sane(v) && MintsFree(mint) && Tame(d) && SoundDoc(d) && Upgraded(v, mint, d).Ok?
    ensures SoundDoc(Upgraded(v, mint, d).value)
  {
    TameIsClear(v, mint, StartOf(VersionOf(d).value).value, d);
    UpgradeSoundnessForeseen(v, mint, d);
  }

  // ---- what the schema accepts -------------------------------------------------------------------

  predicate Scalar(j: Json) { !j.Obj? && !j.Arr? }

  /** Attributes as the schema has them: an object, with a scalar note and a scalar identity reference. */
  predicate SchemaAttrs(e: Members) {
    "attrs" in e ==> e["attrs"].Obj? && forall w | w in WRITTEN && w in AttrsOf(e) :: Scalar(AttrsOf(e)[w])
  }

  predicate SchemaItems(items: seq<Json>) {
    forall i | 0 <= i < |items| && items[i].Obj? :: SchemaAttrs(items[i].members)
  }

  lemma {:induction false} NothingBelow(e: Members, q: Pointer)
    requires SchemaAttrs(e) && Holds(Obj(e), q) && |q| >= 2 && q[0] == "attrs"
    ensures HasAttrs(e) && !(|q| > 2 && q[1] in WRITTEN)
  {
    if HasAttrs(e) {
      HoldsAttr(e, q);
    }
  }

  /** A sound sidecar of a document with such attributes is tame: no upgrade makes it unsound. */
  lemma {:induction false} SchemaIsTame(d: Doc)
    requires SoundDoc(d) && SchemaItems(Items(d, "nodes")) && SchemaItems(Items(d, "edges"))
    ensures Tame(d)
  {
    forall k | k in Keys(d) ensures !BelowWritten(k) && !OnPlainAttrs(d, k) {
      if |k| > 3 && k[0] in {"nodes", "edges"} && k[2] == "attrs" {
        assert KeyResolves(d, k);
        var i := ElementIndex(Items(d, k[0]), k[1]);
        assert SchemaAttrs(Items(d, k[0])[i].members);
        NothingBelow(ElementOf(Items(d, k[0]), k[1]).value, k[2..]);
      }
    }
  }

  /** Upgrading a document whose attributes the schema accepts keeps a sound sidecar sound. */
  lemma {:induction false} ValidUpgradeKeepsSound(v: Texts, mint: Minter, d: Doc)
    requires Sane(v) && MintsFree(mint) && SoundDoc(d) && Upgraded(v, mint, d).Ok?
    requires SchemaItems(Items(d, "nodes")) && SchemaItems(Items(d, "edges"))
    ensures SoundDoc(Upgraded(v, mint, d).value)
  {
    SchemaIsTame(d);
    UpgradeKeepsSound(v, mint, d);
  }
}
