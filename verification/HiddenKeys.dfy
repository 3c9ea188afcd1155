/** When an upgrade leaves a sidecar key that names nothing (model/migrate/migrate.go:223-246): a key below
    a value that some step overwrites stays stored, and no later step brings the value back or drops it. */
module HiddenKeys {
  import opened Json
  import opened Pointers
  import opened Passes
  import opened Normalizing
  import opened Migrating
  import opened Upgrades

  const WRITTEN: set<string> := {MIGRATED_FROM, "identity_id"}

  /** The path lies below a text that a step writes, or in the attributes made for an edge that had none. */
  predicate Buried(coll: string, e: Members, q: Pointer) {
    |q| >= 2 && q[0] == "attrs" && HasAttrs(e)
    && ((|q| > 2 && q[1] in WRITTEN && q[1] in AttrsOf(e) && AttrsOf(e)[q[1]].Str?)
        || (coll == "edges" && q[1] != MIGRATED_FROM && q[1] !in AttrsOf(e)))
  }

  predicate Hidden(d: Doc, k: Pointer) {
    k in Keys(d) && |k| > 2 && k[0] in {"nodes", "edges"}
    && ElementOf(Items(d, k[0]), k[1]).Some? && Buried(k[0], ElementOf(Items(d, k[0]), k[1]).value, k[2..])
  }

  lemma {:induction false} HiddenIsUnsound(d: Doc, k: Pointer)
    requires Hidden(d, k)
    ensures !SoundDoc(d)
  {
    var e, q := ElementOf(Items(d, k[0]), k[1]).value, k[2..];
    if Holds(Obj(e), q) {
      HoldsAttr(e, q);
    }
    assert !KeyResolves(d, k);
  }

  // ---- what buries a path, and what keeps it buried ----------------------------------------------

  /** What was buried stays so, and what an overwritten value held becomes so. */
  ghost predicate Buries(p: Pass, e: Members, q: Pointer) {
    Buried(p.coll, e, q) || (Holds(Obj(e), q) && BelowAny(p.lost(e), q)) ==> Buried(p.coll, p.rewrite(e), q)
  }

  /** No value is removed at or above a buried path. */
  predicate Spares(p: Pass, e: Members) {
    forall r | r in p.removed(e) ::
      r != [] && (r[0] != "attrs" || (p.coll == "nodes" && |r| == 2 && r[1] !in WRITTEN))
  }

  ghost predicate Burying(p: Pass) {
    WellBehaved(p) && p.coll in {"nodes", "edges"} && (forall e, q :: Buries(p, e, q)) && forall e :: Spares(p, e)
  }

  lemma {:induction false} HiddenStays(p: Pass, d: Doc, k: Pointer)
    requires Burying(p) && Hidden(d, k)
    ensures Hidden(Applied(p, d), k)
  {
    if k[0] == p.coll {
      var e, items := ElementOf(Items(d, p.coll), k[1]).value, Items(d, p.coll);
      ElementAfter(p, items, k[1]);
      assert Buries(p, e, k[2..]);
      if UnderAny(Drops(p, items), k) {
        var f, r := DropsAre(p, items, k);
        assert Spares(p, f);
        AddressTail(Address(p, f), r, k);
      }
      DroppedKeys(d.prov, Drops(p, items), d, Applied(p, d));
    } else {
      OtherDrops(p, d, k);
      OtherItems(p, d, k[0]);
    }
  }

  lemma {:induction false} LossHides(p: Pass, d: Doc, k: Pointer)
    requires Burying(p) && k in Keys(d) && KeyResolves(d, k) && Loses(p, d, k)
    ensures Hidden(Applied(p, d), k)
  {
    var e, items := ElementOf(Items(d, p.coll), k[1]).value, Items(d, p.coll);
    ElementAfter(p, items, k[1]);
    assert Buries(p, e, k[2..]);
    LostIsKept(p, d, k);
    DroppedKeys(d.prov, Drops(p, items), d, Applied(p, d));
  }

  /** A pass over a sound sidecar hides a key or keeps the sidecar sound. */
  lemma {:induction false} PassHides(p: Pass, d: Doc) returns (k: Pointer)
    requires Burying(p) && SoundDoc(d)
    ensures if NoneLost(p, d) then SoundDoc(Applied(p, d)) else Hidden(Applied(p, d), k)
  {
    PassKeepsSound(p, d);
    k := [];
    if !NoneLost(p, d) {
      k :| k in Keys(d) && Loses(p, d, k);
      LossHides(p, d, k);
    }
  }

  // ---- the four passes ---------------------------------------------------------------------------

  lemma {:induction false} EdgesBury(v: Texts)
    requires Sane(v)
    ensures Burying(EdgePass(v))
  {
    var p := EdgePass(v);
    EdgePassBehaves(v);
    forall e, q ensures Buries(p, e, q) {
      EdgeBuries(v, e, q);
    }
    forall e ensures Spares(p, e) {}
  }

  lemma {:induction false} EdgeBuries(v: Texts, e: Members, q: Pointer)
    requires Sane(v)
    ensures Buries(EdgePass(v), e, q)
  {
    var f := EdgeRewrite(v, e);
    if StrayProtocol(v, e) && |q| >= 2 && q[0] == "attrs" {
      BelowOne(["attrs"], q);
      BelowOne(["attrs", MIGRATED_FROM], q);
      PairPrefix(MIGRATED_FROM, q);
      if Holds(Obj(e), q) && !HasAttrs(e) {
        NoTextPath(e, q);
      }
    } else if StrayProtocol(v, e) && q != [] {
      SinglePrefix("attrs", q);
      BelowOne(["attrs"], q);
      BelowOne(["attrs", MIGRATED_FROM], q);
    }
  }

  lemma {:induction false} NodesBury(v: Texts)
    requires Sane(v)
    ensures Burying(NodePass(v))
  {
    var p := NodePass(v);
    NodePassBehaves(v);
    forall e, q ensures Buries(p, e, q) {
      NodeBuries(v, e, q);
    }
    forall e ensures Spares(p, e) {
      forall k | k in WRITTEN && k in AttrsOf(e) ensures k in NodeAttrs(v, TypeOf(e), AttrsOf(e)) {
        WrittenStays(v, TypeOf(e), AttrsOf(e), k);
      }
    }
  }

  /** The note and the identity reference outlast the rewrite of a node, and so does a text in them. */
  lemma {:induction false} WrittenStays(v: Texts, t: string, m: Members, k: string)
    requires Sane(v) && k in WRITTEN && k in m
    ensures k in NodeAttrs(v, t, m)
    ensures m[k].Str? ==> NodeAttrs(v, t, m)[k].Str?
  {
    var plain, notes := Plain(v, t, m), RewriteNotes(t, m);
    if t == "log_sink" && HasText(m, "purpose") {
      assert SaneKey(v, m - {"purpose"}, m["purpose"].s);
    }
    assert k in plain && plain[k] == m[k];
    NotesStay(v, plain, notes, k);
  }

  lemma {:induction false} NotesStay(v: Texts, m: Members, entries: seq<string>, k: string)
    requires k in m
    ensures k in NotedAll(v, m, entries)
    ensures m[k].Str? ==> NotedAll(v, m, entries)[k].Str?
  {
    if entries != [] {
      NotesStay(v, m, entries[..|entries| - 1], k);
    }
  }

  lemma {:induction false} NodeBuries(v: Texts, e: Members, q: Pointer)
    requires Sane(v)
    ensures Buries(NodePass(v), e, q)
  {
    BelowOne(["attrs", MIGRATED_FROM], q);
    PairPrefix(MIGRATED_FROM, q);
    if |q| > 2 && q[0] == "attrs" && HasAttrs(e) && q[1] in WRITTEN && q[1] in AttrsOf(e) {
      WrittenStays(v, TypeOf(e), AttrsOf(e), q[1]);
      NodeAttrKeeps(v, TypeOf(e), AttrsOf(e), q[1]);
    }
    if Holds(Obj(e), q) && |q| >= 2 && q[0] == "attrs" && HasAttrs(e) {
      HoldsAttr(e, q);
    }
  }

  lemma {:induction false} HostsBury(v: Texts, hosts: set<string>)
    ensures Burying(HostPass(v, hosts))
  {
    var p := HostPass(v, hosts);
    HostPassBehaves(v, hosts);
    forall e, q ensures Buries(p, e, q) {
      BelowOne(["attrs", MIGRATED_FROM], q);
      PairPrefix(MIGRATED_FROM, q);
    }
    forall e ensures Spares(p, e) {}
  }

  lemma {:induction false} AssignBuries(created: map<string, string>)
    ensures Burying(AssignPass(created))
  {
    var p := AssignPass(created);
    AssignPassBehaves(created);
    forall e, q ensures Buries(p, e, q) {
      BelowOne(["attrs", "identity_id"], q);
      PairPrefix("identity_id", q);
    }
    forall e ensures Spares(p, e) {}
  }

  // ---- the steps ---------------------------------------------------------------------------------

  /** No stored key lies below a value that the step starting at FROM[i] overwrites, pass by pass. */
  predicate NoneHidden(v: Texts, mint: Minter, i: nat, d: Doc)
    requires i < 4
  {
    var n := Normalized(v, d);
    i == 0
    || (NoneLost(EdgePass(v), d) && NoneLost(NodePass(v), Applied(EdgePass(v), d))
        && (i == 1 ==> NoneLost(AssignPass(MintAll(mint, Used(n), Items(n, "nodes")).created), n))
        && (i == 2 ==> NoneLost(HostPass(v, Hosts(Items(n, "nodes"))), n)))
  }

  /** The same for every step from FROM[i] on. */
  predicate NoneHiddenFrom(v: Texts, mint: Minter, i: nat, d: Doc)
    requires i <= 4
    decreases 4 - i
  {
    i == 4 || (NoneHidden(v, mint, i, d) && NoneHiddenFrom(v, mint, i + 1, StepOf(v, mint, i, d)))
  }

  /** The step after its Normalize: the identities, the dangling hosts, the version. */
  function Rest(v: Texts, mint: Minter, i: nat, n: Doc): Doc
    requires i < 4
  {
    AtVersion(if i == 1 then IdentitiesMigrated(mint, n) else if i == 2 then HostsDropped(v, n) else n, To(i))
  }

  lemma {:induction false} VersionHides(d: Doc, version: string, k: Pointer)
    ensures Hidden(AtVersion(d, version), k) <==> Hidden(d, k)
    ensures SoundDoc(AtVersion(d, version)) <==> SoundDoc(d)
  {
    VersionItems(d, version, "nodes");
    VersionItems(d, version, "edges");
    forall q ensures KeyResolves(AtVersion(d, version), q) <==> KeyResolves(d, q) {
      VersionKeepsKey(d, version, q);
    }
  }

  lemma {:induction false} IdentitiesHide(mint: Minter, d: Doc, k: Pointer)
    ensures var p := AssignPass(MintAll(mint, Used(d), Items(d, "nodes")).created);
            Hidden(IdentitiesMigrated(mint, d), k) <==> Hidden(Applied(p, d), k)
  {}

  /** What is hidden before the rest of a step is hidden after it. */
  lemma {:induction false} RestKeepsHidden(v: Texts, mint: Minter, i: nat, n: Doc, k: Pointer)
    requires i < 4 && Hidden(n, k)
    ensures Hidden(Rest(v, mint, i, n), k)
  {
    if i == 1 {
      var created := MintAll(mint, Used(n), Items(n, "nodes")).created;
      AssignBuries(created);
      HiddenStays(AssignPass(created), n, k);
      IdentitiesHide(mint, n, k);
    } else if i == 2 {
      HostsBury(v, Hosts(Items(n, "nodes")));
      HiddenStays(HostPass(v, Hosts(Items(n, "nodes"))), n, k);
    }
    VersionHides(if i == 1 then IdentitiesMigrated(mint, n) else if i == 2 then HostsDropped(v, n) else n, To(i), k);
  }

  lemma {:induction false} RestHides(v: Texts, mint: Minter, i: nat, n: Doc) returns (k: Pointer)
    requires MintsFree(mint) && i < 4 && SoundDoc(n)
    ensures var kept := (i == 1 ==> NoneLost(AssignPass(MintAll(mint, Used(n), Items(n, "nodes")).created), n))
                        && (i == 2 ==> NoneLost(HostPass(v, Hosts(Items(n, "nodes"))), n));
            if kept then SoundDoc(Rest(v, mint, i, n)) else Hidden(Rest(v, mint, i, n), k)
  {
    k := [];
    if i == 1 {
      var created := MintAll(mint, Used(n), Items(n, "nodes")).created;
      AssignBuries(created);
      k := PassHides(AssignPass(created), n);
      IdentitiesHide(mint, n, k);
      IdentitiesKeepSound(mint, n);
    } else if i == 2 {
      HostsBury(v, Hosts(Items(n, "nodes")));
      k := PassHides(HostPass(v, Hosts(Items(n, "nodes"))), n);
    }
    VersionHides(if i == 1 then IdentitiesMigrated(mint, n) else if i == 2 then HostsDropped(v, n) else n, To(i), k);
  }

  lemma {:induction false} NormalizeHides(v: Texts, d: Doc) returns (k: Pointer)
    requires Sane(v) && SoundDoc(d)
    ensures if NoneLost(EdgePass(v), d) && NoneLost(NodePass(v), Applied(EdgePass(v), d)) then SoundDoc(Normalized(v, d))
            else Hidden(Normalized(v, d), k)
  {
    var mid := Applied(EdgePass(v), d);
    EdgesBury(v);
    NodesBury(v);
    k := PassHides(EdgePass(v), d);
    if NoneLost(EdgePass(v), d) {
      k := PassHides(NodePass(v), mid);
    } else {
      HiddenStays(NodePass(v), mid, k);
    }
  }

  lemma {:induction false} StepKeepsHidden(v: Texts, mint: Minter, i: nat, d: Doc, k: Pointer)
    requires Sane(v) && i < 4 && Hidden(d, k)
    ensures Hidden(StepOf(v, mint, i, d), k)
  {
    if i == 0 {
      VersionHides(d, "1.0", k);
    } else {
      EdgesBury(v);
      NodesBury(v);
      HiddenStays(EdgePass(v), d, k);
      HiddenStays(NodePass(v), Applied(EdgePass(v), d), k);
      RestKeepsHidden(v, mint, i, Normalized(v, d), k);
    }
  }

  lemma {:induction false} StepHides(v: Texts, mint: Minter, i: nat, d: Doc) returns (k: Pointer)
    requires Sane(v) && MintsFree(mint) && i < 4 && SoundDoc(d)
    ensures if NoneHidden(v, mint, i, d) then SoundDoc(StepOf(v, mint, i, d)) else Hidden(StepOf(v, mint, i, d), k)
  {
    k := [];
    if i == 0 {
      VersionHides(d, "1.0", k);
    } else {
      var n := Normalized(v, d);
      k := NormalizeHides(v, d);
      if SoundDoc(n) {
        if Hidden(n, k) {
          HiddenIsUnsound(n, k);
        }
        k := RestHides(v, mint, i, n);
      } else {
        RestKeepsHidden(v, mint, i, n, k);
      }
    }
  }

  lemma {:induction false} StepsKeepHidden(v: Texts, mint: Minter, i: nat, d: Doc, k: Pointer)
    requires Sane(v) && i <= 4 && Hidden(d, k)
    ensures Hidden(StepsFrom(v, mint, i, d), k)
    decreases 4 - i
  {
    if i < 4 {
      var next := StepOf(v, mint, i, d);
      StepKeepsHidden(v, mint, i, d, k);
      StepsKeepHidden(v, mint, i + 1, next, k);
    }
  }

  lemma {:induction false} StepsKeepSound(v: Texts, mint: Minter, i: nat, d: Doc)
    requires Sane(v) && MintsFree(mint) && i <= 4 && SoundDoc(d)
    ensures SoundDoc(StepsFrom(v, mint, i, d)) <==> NoneHiddenFrom(v, mint, i, d)
    decreases 4 - i
  {
    if i < 4 {
      var next := StepOf(v, mint, i, d);
      var k := StepHides(v, mint, i, d);
      if NoneHidden(v, mint, i, d) {
        StepsKeepSound(v, mint, i + 1, next);
      } else {
        StepsKeepHidden(v, mint, i + 1, next, k);
        HiddenIsUnsound(StepsFrom(v, mint, i + 1, next), k);
      }
    }
  }

  /** Exactly when an upgrade keeps a sound sidecar sound: no pass of a step overwrites a value that a
      stored key lies below. A key hidden once is hidden for good. */
  lemma {:induction false} UpgradeKeepsSoundIff(v: Texts, mint: Minter, d: Doc)
    requires Sane(v) && MintsFree(mint) && SoundDoc(d) && Upgraded(v, mint, d).Ok?
    ensures SoundDoc(Upgraded(v, mint, d).value) <==> NoneHiddenFrom(v, mint, StartOf(VersionOf(d).value).value, d)
  {
    StepsKeepSound(v, mint, StartOf(VersionOf(d).value).value, d);
  }
}
