/** The passes of the migration steps beside Normalize (model/migrate/v11.go, v12.go): dangling hosts go,
    and agent identity values become identity entities. */
module Migrating {
  import opened Options
  import opened Json
  import opened Pointers
  import opened Passes
  import opened Normalizing

  // ---- dangling hosts ----------------------------------------------------------------------------

  const HOSTED: set<string> := {"agent", "agent_memory"}

  /** The ids a host may name: those of the nodes that are not notes. */
  function Hosts(items: seq<Json>): set<string> {
    if items == [] then {}
    else
      var last := items[|items| - 1];
      Hosts(items[..|items| - 1])
      + if last.Obj? && StringAt(last.members, "id") != "" && TypeOf(last.members) != "note"
        then {StringAt(last.members, "id")} else {}
  }

  /** The non-empty host an agent or an agent memory names. */
  function HostRef(e: Members): Option<string> {
    if TypeOf(e) in HOSTED && HasText(AttrsOf(e), "hosted_on") && AttrsOf(e)["hosted_on"].s != ""
    then Some(AttrsOf(e)["hosted_on"].s)
    else None
  }

  predicate HostHolds(hosts: set<string>, e: Members) {
    HostRef(e).Some? ==> HostRef(e).value != StringAt(e, "id") && HostRef(e).value in hosts
  }

  function HostEntry(e: Members): string
    requires HostRef(e).Some?
  {
    "hosted_on=" + HostRef(e).value
  }

  function HostRewrite(v: Texts, hosts: set<string>, e: Members): Members {
    if HostHolds(hosts, e) then e
    else e["attrs" := Obj(Noted(v, AttrsOf(e) - {"hosted_on"}, HostEntry(e)))]
  }

  function HostRemoved(hosts: set<string>, e: Members): set<Pointer> {
    if HostHolds(hosts, e) then {} else {["attrs", "hosted_on"]}
  }

  function HostLost(v: Texts, hosts: set<string>, e: Members): set<Pointer> {
    if !HostHolds(hosts, e) && v.note(StringAt(AttrsOf(e), MIGRATED_FROM), HostEntry(e)).Some?
    then {["attrs", MIGRATED_FROM]} else {}
  }

  function HostPass(v: Texts, hosts: set<string>): Pass {
    Pass("nodes", e => HostRewrite(v, hosts, e), e => HostRemoved(hosts, e), e => HostLost(v, hosts, e))
  }

  /** dropDanglingHosts. */
  function HostsDropped(v: Texts, d: Doc): Doc { Applied(HostPass(v, Hosts(Items(d, "nodes"))), d) }

  lemma {:induction false} HostPathKept(v: Texts, hosts: set<string>, e: Members, q: Pointer)
    ensures PathKept(HostPass(v, hosts), e, q)
  {
    if !HostHolds(hosts, e) && Holds(Obj(e), q) && !UnderAny(HostRemoved(hosts, e), q) {
      PairPrefix("hosted_on", q);
      UnderOne(["attrs", "hosted_on"], q);
      PairPrefix(MIGRATED_FROM, q);
      BelowOne(["attrs", MIGRATED_FROM], q);
      var f := HostRewrite(v, hosts, e);
      assert StringAt(AttrsOf(e) - {"hosted_on"}, MIGRATED_FROM) == StringAt(AttrsOf(e), MIGRATED_FROM);
      if |q| >= 2 && q[0] == "attrs" {
        HoldsAttr(e, q);
        AttrHolds(e, q);
        AttrHolds(f, q);
      }
    }
  }

  lemma {:induction false} HostApart(v: Texts, hosts: set<string>, e: Members, f: Members)
    ensures Apart(HostPass(v, hosts), e, f)
  {
    forall r, l | r in HostRemoved(hosts, e) && l in HostLost(v, hosts, f) ensures !(r <= l) && !(l <= r) {
      assert r[1] == "hosted_on" && l[1] == MIGRATED_FROM;
    }
  }

  lemma {:induction false} HostPassBehaves(v: Texts, hosts: set<string>)
    ensures WellBehaved(HostPass(v, hosts))
  {
    var p := HostPass(v, hosts);
    forall e ensures PathsKept(p, e) {
      forall q ensures PathKept(p, e, q) {
        HostPathKept(v, hosts, e, q);
      }
    }
    forall e, f ensures Apart(p, e, f) {
      HostApart(v, hosts, e, f);
    }
  }

  /** The pass leaves what a host reference depends on: ids, types, and the references that hold. */
  ghost predicate KeepsHosts(p: Pass, hosts: set<string>, e: Members) {
    StringAt(p.rewrite(e), "id") == StringAt(e, "id") && TypeOf(p.rewrite(e)) == TypeOf(e)
    && (HostHolds(hosts, e) ==> HostHolds(hosts, p.rewrite(e)))
  }

  ghost predicate HoldsAt(hosts: set<string>, items: seq<Json>, i: nat)
    requires i < |items|
  {
    items[i].Obj? ==> HostHolds(hosts, items[i].members)
  }

  /** Every non-empty host of an agent or an agent memory names another node that is not a note. */
  ghost predicate HostsResolve(items: seq<Json>) {
    forall i | 0 <= i < |items| :: HoldsAt(Hosts(items), items, i)
  }

  lemma {:induction false} HostsAre(items: seq<Json>, id: string)
    requires id in Hosts(items)
    ensures exists i :: 0 <= i < |items| && items[i].Obj? && StringAt(items[i].members, "id") == id && TypeOf(items[i].members) != "note"
  {
    var rest, last := items[..|items| - 1], items[|items| - 1];
    if id in Hosts(rest) {
      HostsAre(rest, id);
      var i :| 0 <= i < |rest| && rest[i].Obj? && StringAt(rest[i].members, "id") == id && TypeOf(rest[i].members) != "note";
      assert items[i] == rest[i];
    } else {
      assert items[|items| - 1] == last;
    }
  }

  lemma {:induction false} ItemAt(p: Pass, items: seq<Json>, i: nat)
    requires i < |items|
    ensures ItemsAfter(p, items)[i] == ItemAfter(p, items[i])
  {
    if i < |items| - 1 {
      ItemAt(p, items[..|items| - 1], i);
    }
  }

  lemma {:induction false} HostsStay(p: Pass, hosts: set<string>, items: seq<Json>)
    requires forall e :: KeepsHosts(p, hosts, e)
    ensures Hosts(ItemsAfter(p, items)) == Hosts(items)
  {
    if items != [] {
      var last := items[|items| - 1];
      HostsStay(p, hosts, items[..|items| - 1]);
      assert ItemsAfter(p, items)[..|items| - 1] == ItemsAfter(p, items[..|items| - 1]);
      assert last.Obj? ==> KeepsHosts(p, hosts, last.members);
    }
  }

  /** A pass that keeps host references keeps them resolving. */
  lemma {:induction false} HostsKeepResolving(p: Pass, items: seq<Json>)
    requires (forall e :: KeepsHosts(p, Hosts(items), e)) && HostsResolve(items)
    ensures HostsResolve(ItemsAfter(p, items))
  {
    var after, hosts := ItemsAfter(p, items), Hosts(items);
    HostsStay(p, hosts, items);
    forall i | 0 <= i < |after| ensures HoldsAt(hosts, after, i) {
      ItemAt(p, items, i);
      assert HoldsAt(hosts, items, i);
      assert items[i].Obj? ==> KeepsHosts(p, hosts, items[i].members);
    }
  }

  lemma {:induction false} HostPassKeeps(v: Texts, hosts: set<string>, e: Members)
    ensures KeepsHosts(HostPass(v, hosts), hosts, e) && HostHolds(hosts, HostRewrite(v, hosts, e))
  {
    if !HostHolds(hosts, e) {
      var f := HostRewrite(v, hosts, e);
      assert AttrsOf(f) == Noted(v, AttrsOf(e) - {"hosted_on"}, HostEntry(e));
      assert "hosted_on" !in AttrsOf(f);
    }
  }

  /** How many host references do not resolve. */
  function Dangling(hosts: set<string>, items: seq<Json>): nat {
    if items == [] then 0
    else Dangling(hosts, items[..|items| - 1]) + DanglingAt(hosts, items[|items| - 1])
  }

  function DanglingAt(hosts: set<string>, j: Json): nat { if j.Obj? && !HostHolds(hosts, j.members) then 1 else 0 }

  lemma {:induction false} DanglingZero(hosts: set<string>, items: seq<Json>)
    ensures Dangling(hosts, items) == 0 <==> forall i | 0 <= i < |items| :: HoldsAt(hosts, items, i)
  {
    if items != [] {
      var rest := items[..|items| - 1];
      DanglingZero(hosts, rest);
      assert forall i | 0 <= i < |rest| :: HoldsAt(hosts, rest, i) <==> HoldsAt(hosts, items, i);
      assert HoldsAt(hosts, items, |items| - 1) <==> DanglingAt(hosts, items[|items| - 1]) == 0;
    }
  }

  /** The step counts nothing exactly when every host reference resolves. */
  lemma {:induction false} CountsDangling(items: seq<Json>)
    ensures Dangling(Hosts(items), items) == 0 <==> HostsResolve(items)
  {
    DanglingZero(Hosts(items), items);
  }

  /** After dropDanglingHosts every host reference resolves. */
  lemma {:induction false} HostsDroppedResolve(v: Texts, d: Doc)
    ensures HostsResolve(Items(HostsDropped(v, d), "nodes"))
  {
    var items := Items(d, "nodes");
    var hosts := Hosts(items);
    var p := HostPass(v, hosts);
    forall e ensures KeepsHosts(p, hosts, e) {
      HostPassKeeps(v, hosts, e);
    }
    if "nodes" in d.members && d.members["nodes"].Arr? {
      HostsStay(p, hosts, items);
      var after := ItemsAfter(p, items);
      forall i | 0 <= i < |after| ensures HoldsAt(hosts, after, i) {
        ItemAt(p, items, i);
        if items[i].Obj? {
          HostPassKeeps(v, hosts, items[i].members);
        }
      }
    }
  }

  /** Normalize does not touch a host reference. */
  lemma {:induction false} NodePassKeepsHosts(v: Texts, hosts: set<string>, e: Members)
    requires Sane(v)
    ensures KeepsHosts(NodePass(v), hosts, e)
  {
    if HasAttrs(e) {
      var f, m := NodeRewrite(v, e), AttrsOf(e);
      assert AttrsOf(f) == NodeAttrs(v, TypeOf(e), m);
      HostedOnStays(v, TypeOf(e), m);
    }
  }

  lemma {:induction false} HostedOnStays(v: Texts, t: string, m: Members)
    requires Sane(v)
    ensures Agree(m, NodeAttrs(v, t, m), "hosted_on")
  {
    var plain, narrowed := Plain(v, t, m), Narrowed(v, t, m);
    if t == "log_sink" && HasText(m, "purpose") {
      assert SaneKey(v, m - {"purpose"}, m["purpose"].s);
    }
    assert Agree(m, plain, "hosted_on");
    NotedAllIs(v, plain, RewriteNotes(t, m));
    assert "hosted_on" in plain - {MIGRATED_FROM} <==> "hosted_on" in narrowed - {MIGRATED_FROM};
  }

  lemma {:induction false} NormalizeKeepsHosts(v: Texts, d: Doc)
    requires Sane(v) && HostsResolve(Items(d, "nodes"))
    ensures HostsResolve(Items(Normalized(v, d), "nodes"))
  {
    var mid := Applied(EdgePass(v), d);
    OtherItems(EdgePass(v), d, "nodes");
    var hosts := Hosts(Items(mid, "nodes"));
    forall e ensures KeepsHosts(NodePass(v), hosts, e) {
      NodePassKeepsHosts(v, hosts, e);
    }
    HostsKeepResolving(NodePass(v), Items(mid, "nodes"));
  }

  // ---- agent identities --------------------------------------------------------------------------

  const IDENTITY_VALUES: set<string> := {"agent_id", "managed_identity", "shared", "user_impersonation", "none", "unknown"}

  function IdentityName(value: string): string {
    if value == "agent_id" then "Agent identity (agent_id)"
    else if value == "managed_identity" then "Managed identity"
    else if value == "shared" then "Shared identity"
    else if value == "user_impersonation" then "User impersonation"
    else if value == "none" then "No identity"
    else "Unknown identity"
  }

  function IdentityKind(value: string): string {
    if value == "agent_id" then "agent_identity"
    else if value == "managed_identity" then "workload_identity"
    else if value == "shared" then "shared"
    else if value == "user_impersonation" then "user_account"
    else if value == "none" then "none"
    else ""
  }

  /** The identity entity of a 1.0 value. */
  function Identity(id: string, value: string): Members {
    map["id" := Str(id), "name" := Str(IdentityName(value)), "attrs" := Obj(map[MIGRATED_FROM := Str("agent.identity=" + value)])]
    + (if IdentityKind(value) != "" then map["kind" := Str(IdentityKind(value))] else map[])
    + if value == "managed_identity" then map["credential_type" := Str("managed_identity")] else map[]
  }

  /** An agent with a known identity value that names no identity yet. */
  predicate Eligible(e: Members) {
    TypeOf(e) == "agent" && StringAt(AttrsOf(e), "identity") in IDENTITY_VALUES && StringAt(AttrsOf(e), "identity_id") == ""
  }

  function ValueOf(e: Members): string { StringAt(AttrsOf(e), "identity") }

  function Ids(items: seq<Json>): set<string> {
    if items == [] then {}
    else
      var last := items[|items| - 1];
      Ids(items[..|items| - 1]) + if last.Obj? && IdOf(last.members).Some? then {IdOf(last.members).value} else {}
  }

  /** The ids in use, of every collection and of the findings. */
  function Used(d: Doc): set<string> {
    Ids(Items(d, "nodes")) + Ids(Items(d, "edges")) + Ids(Items(d, "groups")) + Ids(Items(d, "findings")) + Ids(Items(d, "identities"))
  }

  /** The identities made so far: the ids in use, the identity of each value, and the values with their
      identities in order. */
  datatype Minted = Minted(used: set<string>, created: map<string, string>, made: seq<(string, string)>)

  /** The entities of values and their ids. */
  function Entities(made: seq<(string, string)>): (r: seq<Json>)
    ensures |r| == |made|
    ensures forall i | 0 <= i < |made| :: r[i] == Obj(Identity(made[i].1, made[i].0))
  {
    seq(|made|, i requires 0 <= i < |made| => Obj(Identity(made[i].1, made[i].0)))
  }

  type Minter = (set<string>, string) -> string

  ghost predicate Free(mint: Minter, used: set<string>, base: string) { mint(used, base) !in used }

  ghost predicate MintsFree(mint: Minter) {
    forall used, base :: Free(mint, used, base)
  }

  function MintOne(mint: Minter, s: Minted, j: Json): Minted {
    if j.Obj? && Eligible(j.members) && ValueOf(j.members) !in s.created then
      var value := ValueOf(j.members);
      var id := mint(s.used, "ident_" + value);
      Minted(s.used + {id}, s.created[value := id], s.made + [(value, id)])
    else s
  }

  function MintAll(mint: Minter, used: set<string>, nodes: seq<Json>): Minted {
    if nodes == [] then Minted(used, map[], [])
    else MintOne(mint, MintAll(mint, used, nodes[..|nodes| - 1]), nodes[|nodes| - 1])
  }

  function AssignRewrite(created: map<string, string>, e: Members): Members {
    if Eligible(e) && ValueOf(e) in created then e["attrs" := Obj(AttrsOf(e)["identity_id" := Str(created[ValueOf(e)])])]
    else e
  }

  function AssignLost(created: map<string, string>, e: Members): set<Pointer> {
    if Eligible(e) && ValueOf(e) in created then {["attrs", "identity_id"]} else {}
  }

  function AssignPass(created: map<string, string>): Pass {
    Pass("nodes", e => AssignRewrite(created, e), e => {}, e => AssignLost(created, e))
  }

  /** migrateAgentIdentities. */
  function IdentitiesMigrated(mint: Minter, d: Doc): Doc {
    var s := MintAll(mint, Used(d), Items(d, "nodes"));
    var pointed := Applied(AssignPass(s.created), d);
    if s.created == map[] then pointed
    else pointed.(members := pointed.members["identities" := Arr(Items(d, "identities") + Entities(s.made))])
  }

  /** The identities are one for each value, under ids of their own that were not in use. */
  ghost predicate OneEach(used: set<string>, s: Minted) {
    used <= s.used
    && (forall i | 0 <= i < |s.made| :: Makes(used, s, i))
    && (forall i, j | 0 <= i < j < |s.made| :: s.made[i].0 != s.made[j].0 && s.made[i].1 != s.made[j].1)
    && forall x | x in s.created :: (x, s.created[x]) in s.made
  }

  ghost predicate Makes(used: set<string>, s: Minted, i: nat)
    requires i < |s.made|
  {
    s.made[i].1 !in used && s.made[i].1 in s.used && s.made[i].0 in s.created && s.created[s.made[i].0] == s.made[i].1
  }

  /** A value has an identity exactly when an eligible agent has the value. */
  ghost predicate ValuesOf(nodes: seq<Json>, created: map<string, string>) {
    forall x :: x in created <==> HasValue(nodes, x)
  }

  ghost predicate HasValue(nodes: seq<Json>, x: string) {
    exists i :: 0 <= i < |nodes| && nodes[i].Obj? && Eligible(nodes[i].members) && ValueOf(nodes[i].members) == x
  }

  lemma {:induction false} MintOneKeeps(mint: Minter, used: set<string>, s: Minted, j: Json)
    requires MintsFree(mint) && OneEach(used, s)
    ensures OneEach(used, MintOne(mint, s, j))
  {
    if j.Obj? && Eligible(j.members) && ValueOf(j.members) !in s.created {
      var value := ValueOf(j.members);
      var id := mint(s.used, "ident_" + value);
      assert Free(mint, s.used, "ident_" + value);
      MintNew(used, s, value, id);
    }
  }

  lemma {:induction false} MintNew(used: set<string>, s: Minted, value: string, id: string)
    requires OneEach(used, s) && value !in s.created && id !in s.used
    ensures OneEach(used, Minted(s.used + {id}, s.created[value := id], s.made + [(value, id)]))
  {
    var next := Minted(s.used + {id}, s.created[value := id], s.made + [(value, id)]);
    forall i | 0 <= i < |next.made| ensures Makes(used, next, i) {
      assert i < |s.made| ==> Makes(used, s, i);
    }
    forall i | 0 <= i < |s.made| ensures s.made[i].0 != value && s.made[i].1 != id {
      assert Makes(used, s, i);
    }
    forall x | x in next.created ensures (x, next.created[x]) in next.made {
      assert next.made[|s.made|] == (value, id);
      assert x in s.created ==> (x, s.created[x]) in s.made;
    }
  }

  lemma {:induction false} MintAllKeeps(mint: Minter, used: set<string>, nodes: seq<Json>)
    requires MintsFree(mint)
    ensures OneEach(used, MintAll(mint, used, nodes)) && ValuesOf(nodes, MintAll(mint, used, nodes).created)
  {
    if nodes != [] {
      var rest, last := nodes[..|nodes| - 1], nodes[|nodes| - 1];
      MintAllKeeps(mint, used, rest);
      var s := MintAll(mint, used, rest);
      MintOneKeeps(mint, used, s, last);
      forall x ensures x in MintOne(mint, s, last).created <==> HasValue(nodes, x) {
        HasValueLast(nodes, x);
        assert x in s.created <==> HasValue(rest, x);
      }
    }
  }

  lemma {:induction false} HasValueLast(nodes: seq<Json>, x: string)
    requires nodes != []
    ensures HasValue(nodes, x) <==>
            HasValue(nodes[..|nodes| - 1], x)
            || (nodes[|nodes| - 1].Obj? && Eligible(nodes[|nodes| - 1].members) && ValueOf(nodes[|nodes| - 1].members) == x)
  {
    var rest := nodes[..|nodes| - 1];
    if i :| 0 <= i < |rest| && rest[i].Obj? && Eligible(rest[i].members) && ValueOf(rest[i].members) == x {
      assert nodes[i] == rest[i];
    }
    if i :| 0 <= i < |nodes| && nodes[i].Obj? && Eligible(nodes[i].members) && ValueOf(nodes[i].members) == x {
      assert i < |rest| ==> rest[i] == nodes[i];
    }
  }

  // ---- identities and the sidecar ----------------------------------------------------------------

  lemma {:induction false} AssignPathKept(created: map<string, string>, e: Members, q: Pointer)
    ensures PathKept(AssignPass(created), e, q)
  {
    if Eligible(e) && ValueOf(e) in created && Holds(Obj(e), q) {
      var f := AssignRewrite(created, e);
      PairPrefix("identity_id", q);
      BelowOne(["attrs", "identity_id"], q);
      assert HasAttrs(e) && HasAttrs(f);
      if |q| >= 2 && q[0] == "attrs" {
        HoldsAttr(e, q);
        AttrHolds(e, q);
        AttrHolds(f, q);
      }
    }
  }

  lemma {:induction false} AssignPassBehaves(created: map<string, string>)
    ensures WellBehaved(AssignPass(created))
  {
    var p := AssignPass(created);
    forall e ensures PathsKept(p, e) {
      forall q ensures PathKept(p, e, q) {
        AssignPathKept(created, e, q);
      }
    }
    forall e, f ensures Apart(p, e, f) {}
  }

  lemma {:induction false} ElementUsed(items: seq<Json>, id: string)
    ensures ElementOf(items, id).Some? <==> id in Ids(items)
  {
    if items != [] {
      ElementUsed(items[..|items| - 1], id);
    }
  }

  lemma {:induction false} ElementAppend(a: seq<Json>, b: seq<Json>, id: string)
    ensures ElementOf(a + b, id) == if ElementOf(b, id).Some? then ElementOf(b, id) else ElementOf(a, id)
  {
    if b == [] {
      assert a + b == a;
    } else {
      assert (a + b)[..|a + b| - 1] == a + b[..|b| - 1];
      ElementAppend(a, b[..|b| - 1], id);
    }
  }

  lemma {:induction false} EntityId(id: string, value: string)
    ensures IdOf(Identity(id, value)) == Some(id)
  {}

  ghost predicate HasIds(items: seq<Json>, ids: seq<string>) {
    |ids| == |items| && forall i | 0 <= i < |items| :: items[i].Obj? && IdOf(items[i].members) == Some(ids[i])
  }

  predicate DistinctIds(ids: seq<string>) {
    forall i, j | 0 <= i < j < |ids| :: ids[i] != ids[j]
  }

  /** Where ids do not repeat, an id names its one element. */
  lemma {:induction false} OwnElement(items: seq<Json>, ids: seq<string>, i: nat)
    requires HasIds(items, ids) && DistinctIds(ids) && i < |items|
    ensures ElementOf(items, ids[i]) == Some(items[i].members)
  {
    if i < |items| - 1 {
      assert ids[i] != ids[|items| - 1];
      OwnElement(items[..|items| - 1], ids[..|items| - 1], i);
    }
  }

  lemma {:induction false} NoElement(items: seq<Json>, ids: seq<string>, id: string)
    requires HasIds(items, ids) && id !in ids
    ensures ElementOf(items, id).None?
  {
    if items != [] {
      assert ids[|ids| - 1] in ids;
      NoElement(items[..|items| - 1], ids[..|items| - 1], id);
    }
  }

  function MadeIds(made: seq<(string, string)>): (r: seq<string>)
    ensures |r| == |made| && forall i | 0 <= i < |made| :: r[i] == made[i].1
  {
    seq(|made|, i requires 0 <= i < |made| => made[i].1)
  }

  lemma {:induction false} EntitiesHaveIds(made: seq<(string, string)>)
    ensures HasIds(Entities(made), MadeIds(made))
  {
    forall i | 0 <= i < |made| ensures Entities(made)[i].Obj? && IdOf(Entities(made)[i].members) == Some(made[i].1) {
      EntityId(made[i].1, made[i].0);
    }
  }

  /** Adding the identities changes what no id in use names. */
  lemma {:induction false} NewIdentitiesKeep(mint: Minter, d: Doc, id: string)
    requires MintsFree(mint) && id in Used(d)
    ensures var s := MintAll(mint, Used(d), Items(d, "nodes"));
            ElementOf(Items(d, "identities") + Entities(s.made), id) == ElementOf(Items(d, "identities"), id)
  {
    var s := MintAll(mint, Used(d), Items(d, "nodes"));
    MintAllKeeps(mint, Used(d), Items(d, "nodes"));
    ElementAppend(Items(d, "identities"), Entities(s.made), id);
    EntitiesHaveIds(s.made);
    forall i | 0 <= i < |s.made| ensures MadeIds(s.made)[i] != id {
      assert Makes(Used(d), s, i);
    }
    NoElement(Entities(s.made), MadeIds(s.made), id);
  }

  lemma {:induction false} IdentityKey(mint: Minter, d: Doc, k: Pointer)
    requires MintsFree(mint)
    ensures var p := AssignPass(MintAll(mint, Used(d), Items(d, "nodes")).created);
            (k[..1] == ["identities"] ==> KeyResolves(d, k) ==> KeyResolves(IdentitiesMigrated(mint, d), k))
            && (k[..1] != ["identities"] ==> (KeyResolves(IdentitiesMigrated(mint, d), k) <==> KeyResolves(Applied(p, d), k)))
    requires |k| >= 1
  {
    var s := MintAll(mint, Used(d), Items(d, "nodes"));
    assert k[..1] == [k[0]];
    if k[0] == "identities" && KeyResolves(d, k) {
      ElementUsed(Items(d, "identities"), k[1]);
      NewIdentitiesKeep(mint, d, k[1]);
      OtherItems(AssignPass(s.created), d, "identities");
    }
  }

  /** migrateAgentIdentities keeps a sound sidecar sound exactly when no stored key lies below an
      identity_id that it writes. */
  lemma {:induction false} IdentitiesKeepSound(mint: Minter, d: Doc)
    requires MintsFree(mint) && SoundDoc(d)
    ensures SoundDoc(IdentitiesMigrated(mint, d)) <==> NoneLost(AssignPass(MintAll(mint, Used(d), Items(d, "nodes")).created), d)
  {
    var p := AssignPass(MintAll(mint, Used(d), Items(d, "nodes")).created);
    var after := IdentitiesMigrated(mint, d);
    AssignPassBehaves(MintAll(mint, Used(d), Items(d, "nodes")).created);
    PassKeepsSound(p, d);
    assert Keys(after) == Keys(Applied(p, d));
    MidKeys(p, d);
    forall k | k in Keys(after) ensures KeyResolves(after, k) <==> KeyResolves(Applied(p, d), k) {
      assert KeyResolves(d, k);
      IdentityKey(mint, d, k);
      assert k[..1] == [k[0]];
      if k[0] == "identities" {
        OtherDrops(p, d, k);
      }
    }
  }

  /** The id made for a value names its identity, and was not in use. */
  lemma {:induction false} IdentityIsMade(mint: Minter, d: Doc, value: string)
    requires MintsFree(mint) && HasValue(Items(d, "nodes"), value)
    ensures var s := MintAll(mint, Used(d), Items(d, "nodes"));
            value in s.created && s.created[value] !in Used(d)
            && ElementOf(Items(IdentitiesMigrated(mint, d), "identities"), s.created[value])
               == Some(Identity(s.created[value], value))
  {
    var nodes := Items(d, "nodes");
    var s := MintAll(mint, Used(d), nodes);
    MintAllKeeps(mint, Used(d), nodes);
    OtherItems(AssignPass(s.created), d, "identities");
    var i := MadeAt(Used(d), s, value);
    EntitiesHaveIds(s.made);
    OwnElement(Entities(s.made), MadeIds(s.made), i);
    ElementAppend(Items(d, "identities"), Entities(s.made), s.created[value]);
  }

  /** After the step an eligible agent names the one identity of its value, under an id that was not in
      use; no value has two, since the identity an id names tells its value. */
  lemma {:induction false} AgentsNameIdentities(mint: Minter, d: Doc, i: nat)
    requires MintsFree(mint) && i < |Items(d, "nodes")| && Items(d, "nodes")[i].Obj? && Eligible(Items(d, "nodes")[i].members)
    ensures var value := ValueOf(Items(d, "nodes")[i].members);
            var after := IdentitiesMigrated(mint, d);
            var s := MintAll(mint, Used(d), Items(d, "nodes"));
            value in s.created && s.created[value] !in Used(d)
            && |Items(after, "nodes")| == |Items(d, "nodes")| && Items(after, "nodes")[i].Obj?
            && StringAt(AttrsOf(Items(after, "nodes")[i].members), "identity_id") == s.created[value]
            && ElementOf(Items(after, "identities"), s.created[value]) == Some(Identity(s.created[value], value))
  {
    var nodes := Items(d, "nodes");
    var e := nodes[i].members;
    assert HasValue(nodes, ValueOf(e));
    IdentityIsMade(mint, d, ValueOf(e));
    var s := MintAll(mint, Used(d), nodes);
    AssignedAt(s.created, nodes, i);
  }

  lemma {:induction false} AssignedAt(created: map<string, string>, nodes: seq<Json>, i: nat)
    requires i < |nodes| && nodes[i].Obj? && Eligible(nodes[i].members) && ValueOf(nodes[i].members) in created
    ensures var after := ItemsAfter(AssignPass(created), nodes)[i];
            after.Obj? && StringAt(AttrsOf(after.members), "identity_id") == created[ValueOf(nodes[i].members)]
  {
    ItemAt(AssignPass(created), nodes, i);
    var e := nodes[i].members;
    assert AttrsOf(AssignRewrite(created, e)) == AttrsOf(e)["identity_id" := Str(created[ValueOf(e)])];
  }

  /** The identities the step adds: one for each value of an eligible agent, in the order the values first
      appear, after those the document had. */
  lemma {:induction false} IdentitiesAdded(mint: Minter, d: Doc)
    requires MintsFree(mint)
    ensures var s := MintAll(mint, Used(d), Items(d, "nodes"));
            OneEach(Used(d), s) && ValuesOf(Items(d, "nodes"), s.created) && InFirstOrder(Items(d, "nodes"), s.made)
            && Items(IdentitiesMigrated(mint, d), "identities") == Items(d, "identities") + Entities(s.made)
  {
    var s := MintAll(mint, Used(d), Items(d, "nodes"));
    MintAllKeeps(mint, Used(d), Items(d, "nodes"));
    MadeInOrder(mint, Used(d), Items(d, "nodes"));
    OtherItems(AssignPass(s.created), d, "identities");
    assert s.made != [] ==> Makes(Used(d), s, 0);
  }

  /** The first node that is eligible with the value. */
  predicate FirstWith(nodes: seq<Json>, x: string, i: nat) {
    i < |nodes| && HasAt(nodes[i], x) && forall j | 0 <= j < i :: !HasAt(nodes[j], x)
  }

  predicate HasAt(j: Json, x: string) { j.Obj? && Eligible(j.members) && ValueOf(j.members) == x }

  /** The values are in the order of their first nodes. */
  ghost predicate InFirstOrder(nodes: seq<Json>, made: seq<(string, string)>) {
    forall i, j, a, b | 0 <= i < j < |made| && FirstWith(nodes, made[i].0, a) && FirstWith(nodes, made[j].0, b) :: a < b
  }

  /** The identities are made in the order in which their values first appear. */
  lemma {:induction false} MadeInOrder(mint: Minter, used: set<string>, nodes: seq<Json>)
    requires MintsFree(mint)
    ensures InFirstOrder(nodes, MintAll(mint, used, nodes).made)
  {
    if nodes != [] {
      var rest, last := nodes[..|nodes| - 1], nodes[|nodes| - 1];
      var s, t := MintAll(mint, used, rest), MintAll(mint, used, nodes);
      MadeInOrder(mint, used, rest);
      MintAllKeeps(mint, used, rest);
      forall i, j, a, b | 0 <= i < j < |t.made| && FirstWith(nodes, t.made[i].0, a) && FirstWith(nodes, t.made[j].0, b)
        ensures a < b
      {
        FirstInRest(mint, used, rest, nodes, i, a);
        if j < |s.made| {
          FirstInRest(mint, used, rest, nodes, j, b);
        } else {
          LastIsNew(rest, nodes, t.made[j].0, b);
        }
      }
    }
  }

  /** A value that had an identity before the last node first appears before it. */
  lemma {:induction false} FirstInRest(mint: Minter, used: set<string>, rest: seq<Json>, nodes: seq<Json>, i: nat, a: nat)
    requires MintsFree(mint) && nodes != [] && rest == nodes[..|nodes| - 1]
    requires i < |MintAll(mint, used, rest).made| && FirstWith(nodes, MintAll(mint, used, rest).made[i].0, a)
    ensures a < |rest| && FirstWith(rest, MintAll(mint, used, rest).made[i].0, a)
  {
    var s := MintAll(mint, used, rest);
    MintAllKeeps(mint, used, rest);
    assert Makes(used, s, i);
    var k :| 0 <= k < |rest| && HasAt(rest[k], s.made[i].0);
    assert nodes[k] == rest[k];
  }

  lemma {:induction false} LastIsNew(rest: seq<Json>, nodes: seq<Json>, x: string, b: nat)
    requires nodes != [] && rest == nodes[..|nodes| - 1] && !HasValue(rest, x) && FirstWith(nodes, x, b)
    ensures b == |rest|
  {
    forall j | 0 <= j < |rest| ensures !HasAt(nodes[j], x) {
      assert nodes[j] == rest[j];
    }
  }

  lemma {:induction false} MadeAt(used: set<string>, s: Minted, value: string) returns (i: nat)
    requires OneEach(used, s) && value in s.created
    ensures i < |s.made| && s.made[i] == (value, s.created[value]) && s.created[value] !in used
    ensures DistinctIds(MadeIds(s.made))
  {
    assert (value, s.created[value]) in s.made;
    i :| 0 <= i < |s.made| && s.made[i] == (value, s.created[value]);
    assert Makes(used, s, i);
  }

  /** The other nodes keep their members. */
  lemma {:induction false} OtherNodesStay(mint: Minter, d: Doc, i: nat)
    requires i < |Items(d, "nodes")| && !(Items(d, "nodes")[i].Obj? && Eligible(Items(d, "nodes")[i].members))
    ensures |Items(IdentitiesMigrated(mint, d), "nodes")| == |Items(d, "nodes")|
    ensures Items(IdentitiesMigrated(mint, d), "nodes")[i] == Items(d, "nodes")[i]
  {
    ItemAt(AssignPass(MintAll(mint, Used(d), Items(d, "nodes")).created), Items(d, "nodes"), i);
  }
}
