/** The migrations as the source runs them (model/migrate): documents and attributes rewritten in place,
    proved to be the passes of Normalizing, Migrating and Upgrades. */
module Migration {
  import opened Options
  import opened Json
  import opened Pointers
  import opened Passes
  import opened Normalizing
  import opened Migrating
  import opened Upgrades
  import opened Foreseen
  import opened Spellings

  // ---- attributes --------------------------------------------------------------------------------

  lemma {:induction false} NoteCommutes(v: Texts, m: Members, key: string, entry: string)
    requires key != MIGRATED_FROM
    ensures Noted(v, m, entry) - {key} == Noted(v, m - {key}, entry)
    ensures HasText(Noted(v, m, entry), key) == HasText(m, key)
    ensures HasText(m, key) ==> Noted(v, m, entry)[key] == m[key]
  {}

  lemma {:induction false} OneNote(v: Texts, m: Members, entry: string)
    ensures NotedAll(v, m, [entry]) == Noted(v, m, entry) && NotedAll(v, m, []) == m
  {
    assert [entry][..0] == [];
  }

  lemma {:induction false} TwoNotes(v: Texts, m: Members, first: seq<string>, second: string)
    ensures NotedAll(v, m, first + [second]) == Noted(v, NotedAll(v, m, first), second)
  {
    assert (first + [second])[..|first|] == first;
  }

  /** The attrs map of an element. */
  class Attrs {
    var m: Members

    constructor (m: Members)
      ensures this.m == m
    {
      this.m := m;
    }

    /** noteAttrs. */
    method Note(v: Texts, entry: string)
      modifies this
      ensures m == Noted(v, old(m), entry)
    {
      var prev := StringAt(m, MIGRATED_FROM);
      var next := v.note(prev, entry);
      if next.Some? {
        m := m[MIGRATED_FROM := Str(next.value)];
      }
    }

    method DropBoolean(v: Texts, key: string) returns (n: nat)
      modifies this
      ensures m == NotedAll(v, WithoutBool(old(m), key), BoolNotes(old(m), key)) && n == |BoolNotes(old(m), key)|
    {
      if key !in m || !m[key].Bool? {
        return 0;
      }
      var b := m[key].b;
      m := m - {key};
      OneNote(v, m, key + "=" + BoolText(b));
      Note(v, key + "=" + BoolText(b));
      return 1;
    }

    method NarrowPurpose(v: Texts) returns (n: nat)
      requires v.freeKey == FreeKey
      modifies this
      ensures m == NotedAll(v, PurposeNarrowed(v, old(m)), if HasText(old(m), "purpose") then ["purpose=" + old(m)["purpose"].s] else [])
      ensures n == if HasText(old(m), "purpose") then 1 else 0
    {
      if "purpose" !in m || !m["purpose"].Str? {
        OneNote(v, m, "");
        return 0;
      }
      var text := m["purpose"].s;
      var folded := v.fold(text);
      if folded in PURPOSES {
        m := m["purpose" := Str(folded)];
      } else {
        m := m - {"purpose"};
        if !v.blank(text) {
          var key := FindFreeKey(m, text);
          m := m[key := Str(text)];
        }
      }
      OneNote(v, m, "purpose=" + text);
      Note(v, "purpose=" + text);
      return 1;
    }

    method NarrowAgent(v: Texts) returns (n: nat)
      requires NeedsNarrowing("agent", m)
      modifies this
      ensures m == Narrowed(v, "agent", old(m)) && n == |RewriteNotes("agent", old(m))|
    {
      ghost var was := m;
      ghost var first := BoolNotes(m, "egress_policy");
      AgentNotes(v, was);
      n := DropBoolean(v, "egress_policy");
      if "kind" in m && m["kind"].Str? {
        var text := m["kind"].s;
        if text != "" && text !in AGENT_KINDS {
          m := m - {"kind"};
          Note(v, "kind=" + text);
          n := n + 1;
        }
      }
    }

    method NarrowExposure(v: Texts) returns (n: nat)
      requires NeedsNarrowing("mcp_server", m)
      modifies this
      ensures m == Narrowed(v, "mcp_server", old(m)) && n == |RewriteNotes("mcp_server", old(m))|
    {
      OneNote(v, m, "");
      n := 0;
      if "exposure" in m && m["exposure"].Str? {
        var text := m["exposure"].s;
        if text == "internal" || text == "unknown" {
          if text == "unknown" {
            m := m - {"exposure"};
          } else {
            m := m["exposure" := Str("private_network")];
          }
          OneNote(v, m, "exposure=" + text);
          Note(v, "exposure=" + text);
          n := 1;
        }
      }
    }

    /** NormalizeNodeAttrs. */
    method NormalizeNodeAttrs(v: Texts, t: string) returns (n: nat)
      requires v.freeKey == FreeKey
      modifies this
      ensures m == Narrowed(v, t, old(m)) && n == |RewriteNotes(t, old(m))|
    {
      if !NeedsNarrowing(t, m) {
        OneNote(v, m, "");
        return 0;
      }
      if t == "log_sink" {
        n := NarrowPurpose(v);
      } else if t == "agent" {
        n := NarrowAgent(v);
      } else if t == "tool" {
        n := DropBoolean(v, "egress_policy");
      } else {
        n := NarrowExposure(v);
      }
    }

    /** A single authn value becomes a list. */
    method ListAuthn() returns (n: nat)
      modifies this
      ensures m == AuthnListed(old(m)) && n == if HasText(old(m), "authn") then 1 else 0
    {
      if "authn" !in m || !m["authn"].Str? {
        return 0;
      }
      if m["authn"].s == "" {
        m := m - {"authn"};
      } else {
        m := m["authn" := Arr([m["authn"]])];
      }
      return 1;
    }
  }

  /** The kind goes after the first note or before it, with the same result. */
  lemma {:induction false} AgentNotes(v: Texts, m: Members)
    requires NeedsNarrowing("agent", m)
    ensures var first := NotedAll(v, WithoutBool(m, "egress_policy"), BoolNotes(m, "egress_policy"));
            (HasText(first, "kind") <==> HasText(m, "kind"))
            && (HasText(m, "kind") ==> first["kind"] == m["kind"])
            && Narrowed(v, "agent", m) == if StrayKind(m) then Noted(v, first - {"kind"}, "kind=" + m["kind"].s) else first
  {
    var rest, notes := WithoutBool(m, "egress_policy"), BoolNotes(m, "egress_policy");
    var first := NotedAll(v, rest, notes);
    if notes == [] {
      OneNote(v, rest, "");
      OneNote(v, rest - {"kind"}, "");
    } else {
      OneNote(v, rest, notes[0]);
      OneNote(v, rest - {"kind"}, notes[0]);
      assert notes == [notes[0]];
      NoteCommutes(v, rest, "kind", notes[0]);
    }
    if StrayKind(m) {
      TwoNotes(v, rest - {"kind"}, notes, "kind=" + m["kind"].s);
    } else {
      assert RewriteNotes("agent", m) == notes;
    }
  }

  // ---- one collection, item by item --------------------------------------------------------------

  /** The first n items of the collection are rewritten and their entries dropped. */
  ghost predicate PassAt(p: Pass, d: Doc, n: nat, members: Members, prov: Option<Entries>) {
    p.coll in d.members && d.members[p.coll].Arr? && n <= |Items(d, p.coll)|
    && members == d.members[p.coll := Arr(ItemsAfter(p, Items(d, p.coll)[..n]) + Items(d, p.coll)[n..])]
    && prov == Dropped(d.prov, Drops(p, Items(d, p.coll)[..n]))
  }

  lemma {:induction false} PassStarts(p: Pass, d: Doc)
    requires p.coll in d.members && d.members[p.coll].Arr?
    ensures PassAt(p, d, 0, d.members, d.prov)
  {
    DroppedNothing(d.prov);
    var items := Items(d, p.coll);
    assert items[..0] == [] && ItemsAfter(p, []) + items == items;
    assert d.members[p.coll := d.members[p.coll]] == d.members;
  }

  lemma {:induction false} PassEnds(p: Pass, d: Doc, members: Members, prov: Option<Entries>)
    requires p.coll in d.members && d.members[p.coll].Arr? && PassAt(p, d, |Items(d, p.coll)|, members, prov)
    ensures Doc(members, prov) == Applied(p, d)
  {
    var items := Items(d, p.coll);
    assert items[..|items|] == items && items[|items|..] == [];
    assert ItemsAfter(p, items) + [] == ItemsAfter(p, items);
  }

  lemma {:induction false} ItemNow(p: Pass, d: Doc, n: nat, members: Members, prov: Option<Entries>)
    requires PassAt(p, d, n, members, prov) && n < |Items(d, p.coll)|
    ensures p.coll in members && members[p.coll].Arr? && |members[p.coll].items| == |Items(d, p.coll)|
    ensures members[p.coll].items[n] == Items(d, p.coll)[n]
  {}

  /** One more item. */
  lemma {:induction false} PassSteps(p: Pass, d: Doc, n: nat, members: Members, prov: Option<Entries>)
    requires PassAt(p, d, n, members, prov) && n < |Items(d, p.coll)|
    ensures var items := Items(d, p.coll);
            PassAt(p, d, n + 1, members[p.coll := Arr(members[p.coll].items[n := ItemAfter(p, items[n])])],
                   Dropped(prov, ItemDrops(p, items[n])))
  {
    var items := Items(d, p.coll);
    var next := items[..n + 1];
    assert next[..n] == items[..n] && next[n] == items[n];
    assert ItemsAfter(p, next) == ItemsAfter(p, items[..n]) + [ItemAfter(p, items[n])];
    assert (ItemsAfter(p, items[..n]) + items[n..])[n := ItemAfter(p, items[n])]
        == ItemsAfter(p, items[..n]) + [ItemAfter(p, items[n])] + items[n + 1..];
    DroppedTwice(d.prov, Drops(p, items[..n]), ItemDrops(p, items[n]));
  }

  // ---- documents ---------------------------------------------------------------------------------

  /** The attributes of one node. */
  method RewriteAttrs(v: Texts, t: string, m: Members) returns (after: Members, n: nat)
    requires v.freeKey == FreeKey
    ensures after == NodeAttrs(v, t, m) && n == NodeRewrites(t, m)
  {
    var attrs := new Attrs(m);
    n := attrs.NormalizeNodeAttrs(v, t);
    AuthnStays(v, t, m);
    var listed := attrs.ListAuthn();
    after, n := attrs.m, n + listed;
  }

  lemma {:induction false} AuthnStays(v: Texts, t: string, m: Members)
    requires v.freeKey == FreeKey
    ensures HasText(Narrowed(v, t, m), "authn") <==> HasText(m, "authn")
  {
    forall n, text ensures SaneKey(v, n, text) {
      KeysAreSane(n, text);
    }
    NotedAllIs(v, Plain(v, t, m), RewriteNotes(t, m));
    PlainAuthn(v, t, m);
    assert "authn" in Narrowed(v, t, m) - {MIGRATED_FROM} <==> "authn" in Plain(v, t, m) - {MIGRATED_FROM};
  }

  lemma {:induction false} PlainAuthn(v: Texts, t: string, m: Members)
    requires forall n, text :: SaneKey(v, n, text)
    ensures Agree(m, Plain(v, t, m), "authn")
  {
    if t == "log_sink" && HasText(m, "purpose") {
      assert SaneKey(v, m - {"purpose"}, m["purpose"].s);
    }
  }

  class Document {
    var members: Members
    var prov: Option<Entries>

    constructor (d: Doc)
      ensures View() == d
    {
      members, prov := d.members, d.prov;
    }

    function View(): Doc
      reads this
    {
      Doc(members, prov)
    }

    /** dropProvenance: the entries under a value that is gone. */
    method DropProvenance(prefix: Pointer)
      modifies this`prov
      ensures prov == Dropped(old(prov), {prefix})
    {
      if prov.None? || prov.value == map[] {
        return;
      }
      var kept, rest := prov.value, prov.value.Keys;
      ghost var was := prov.value;
      while rest != {}
        invariant rest <= was.Keys
        invariant kept == map k | k in was && (k in rest || !(prefix <= k)) :: was[k]
      {
        var k :| k in rest;
        rest := rest - {k};
        if prefix <= k {
          kept := kept - {k};
        }
      }
      forall k: Pointer ensures UnderAny({prefix}, k) <==> prefix <= k {
        UnderOne(prefix, k);
      }
      assert kept == map k | k in was && !UnderAny({prefix}, k) :: was[k];
      prov := if |kept| == 0 then None else Some(kept);
    }

    method DropAll(prefixes: set<Pointer>)
      modifies this`prov
      ensures prov == Dropped(old(prov), prefixes)
    {
      var rest := prefixes;
      ghost var was := prov;
      DroppedNothing(prov);
      assert prefixes - rest == {};
      while rest != {}
        invariant rest <= prefixes && prov == Dropped(was, prefixes - rest)
      {
        var p :| p in rest;
        DroppedTwice(was, prefixes - rest, {p});
        assert prefixes - rest + {p} == prefixes - (rest - {p});
        DropProvenance(p);
        rest := rest - {p};
      }
      assert prefixes - rest == prefixes;
    }

    // ---- Normalize -------------------------------------------------------------------------------

    method RewriteEdge(v: Texts, e: Members) returns (f: Members, n: nat)
      modifies this`prov
      ensures f == EdgeRewrite(v, e) && n == (if StrayProtocol(v, e) then 1 else 0)
      ensures prov == Dropped(old(prov), ItemDrops(EdgePass(v), Obj(e)))
    {
      f, n := e, 0;
      DroppedNothing(prov);
      if "protocol" !in e || !e["protocol"].Str? || v.valid(e["protocol"].s) {
        assert ItemDrops(EdgePass(v), Obj(e)) == {};
        return;
      }
      var text := e["protocol"].s;
      var value := v.canonical(text);
      if value == "" {
        f := f - {"protocol"};
        DropsOne(EdgePass(v), e, ["protocol"]);
        DropProvenance(["edges", StringAt(e, "id")] + ["protocol"]);
      } else {
        f := f["protocol" := Str(value)];
        assert ItemDrops(EdgePass(v), Obj(e)) == {};
      }
      if v.noted(text) && !v.blank(text) {
        var attrs := new Attrs(AttrsOf(f));
        attrs.Note(v, "protocol=" + text);
        f := f["attrs" := Obj(attrs.m)];
      }
      n := 1;
    }

    method NormalizeEdgeAt(v: Texts, i: nat, ghost d: Doc) returns (n: nat)
      requires PassAt(EdgePass(v), d, i, members, prov) && i < |Items(d, "edges")|
      modifies this
      ensures PassAt(EdgePass(v), d, i + 1, members, prov) && n == EdgeCount(v, Items(d, "edges")[i])
    {
      ItemNow(EdgePass(v), d, i, members, prov);
      PassSteps(EdgePass(v), d, i, members, prov);
      var j := members["edges"].items[i];
      n := 0;
      if j.Obj? {
        var f;
        f, n := RewriteEdge(v, j.members);
        members := members["edges" := Arr(members["edges"].items[i := Obj(f)])];
      } else {
        Untouched(EdgePass(v), members, prov, i);
      }
    }

    method NormalizeEdges(v: Texts) returns (n: nat)
      modifies this
      ensures View() == Applied(EdgePass(v), old(View())) && n == EdgeCounts(v, Items(old(View()), "edges"))
    {
      n := 0;
      if "edges" !in members || !members["edges"].Arr? {
        return;
      }
      ghost var d, p := View(), EdgePass(v);
      PassStarts(p, d);
      ghost var items := Items(d, "edges");
      for i := 0 to |members["edges"].items|
        invariant PassAt(p, d, i, members, prov) && n == EdgeCounts(v, items[..i])
      {
        assert items[..i + 1][..i] == items[..i];
        var k := NormalizeEdgeAt(v, i, d);
        n := n + k;
      }
      PassEnds(p, d, members, prov);
      assert items[..|items|] == items;
    }

    method RewriteNode(v: Texts, e: Members) returns (f: Members, n: nat)
      requires v.freeKey == FreeKey
      modifies this`prov
      ensures f == NodeRewrite(v, e)
      ensures n == if HasAttrs(e) then NodeRewrites(TypeOf(e), AttrsOf(e)) else 0
      ensures prov == Dropped(old(prov), ItemDrops(NodePass(v), Obj(e)))
    {
      f, n := e, 0;
      if "attrs" !in e || !e["attrs"].Obj? {
        DroppedNothing(prov);
        assert ItemDrops(NodePass(v), Obj(e)) == {};
        return;
      }
      var after;
      after, n := RewriteAttrs(v, StringAt(e, "type"), e["attrs"].members);
      var removed := e["attrs"].members.Keys - after.Keys;
      var id := StringAt(e, "id");
      NodeDrops(v, e, removed);
      DropAll(set k | k in removed :: ["nodes", id] + ["attrs", k]);
      f := f["attrs" := Obj(after)];
    }

    method NormalizeNodeAt(v: Texts, i: nat, ghost d: Doc) returns (n: nat)
      requires v.freeKey == FreeKey && PassAt(NodePass(v), d, i, members, prov) && i < |Items(d, "nodes")|
      modifies this
      ensures PassAt(NodePass(v), d, i + 1, members, prov) && n == NodeCount(Items(d, "nodes")[i])
    {
      ItemNow(NodePass(v), d, i, members, prov);
      PassSteps(NodePass(v), d, i, members, prov);
      var j := members["nodes"].items[i];
      n := 0;
      if j.Obj? {
        var f;
        f, n := RewriteNode(v, j.members);
        members := members["nodes" := Arr(members["nodes"].items[i := Obj(f)])];
      } else {
        Untouched(NodePass(v), members, prov, i);
      }
    }

    method NormalizeNodes(v: Texts) returns (n: nat)
      requires v.freeKey == FreeKey
      modifies this
      ensures View() == Applied(NodePass(v), old(View())) && n == NodeCounts(Items(old(View()), "nodes"))
    {
      n := 0;
      if "nodes" !in members || !members["nodes"].Arr? {
        return;
      }
      ghost var d, p := View(), NodePass(v);
      PassStarts(p, d);
      ghost var items := Items(d, "nodes");
      for i := 0 to |members["nodes"].items|
        invariant PassAt(p, d, i, members, prov) && n == NodeCounts(items[..i])
      {
        assert items[..i + 1][..i] == items[..i];
        var k := NormalizeNodeAt(v, i, d);
        n := n + k;
      }
      PassEnds(p, d, members, prov);
      assert items[..|items|] == items;
    }

    /** Normalize, with the number of values it rewrites. */
    method Normalize(v: Texts) returns (n: nat)
      requires v.freeKey == FreeKey
      modifies this
      ensures View() == Normalized(v, old(View())) && n == Rewrites(v, old(View()))
    {
      OtherItems(EdgePass(v), View(), "nodes");
      n := NormalizeEdges(v);
      var k := NormalizeNodes(v);
      n := n + k;
    }

    // ---- dangling hosts --------------------------------------------------------------------------

    /** The ids a host may name. */
    method CollectHosts() returns (hosts: set<string>)
      ensures hosts == Hosts(Items(View(), "nodes"))
    {
      hosts := {};
      var items := Items(View(), "nodes");
      for i := 0 to |items|
        invariant hosts == Hosts(items[..i])
      {
        assert items[..i + 1][..i] == items[..i];
        if items[i].Obj? {
          var e := items[i].members;
          var id := StringAt(e, "id");
          if id != "" && StringAt(e, "type") != "note" {
            hosts := hosts + {id};
          }
        }
      }
      assert items[..|items|] == items;
    }

    method RewriteHost(v: Texts, hosts: set<string>, e: Members) returns (f: Members, n: nat)
      modifies this`prov
      ensures f == HostRewrite(v, hosts, e) && n == (if HostHolds(hosts, e) then 0 else 1)
      ensures prov == Dropped(old(prov), ItemDrops(HostPass(v, hosts), Obj(e)))
    {
      f, n := e, 0;
      var ref := HostRef(e);
      var id := StringAt(e, "id");
      if ref.None? || (ref.value != id && ref.value in hosts) {
        DroppedNothing(prov);
        assert ItemDrops(HostPass(v, hosts), Obj(e)) == {};
        return;
      }
      var attrs := new Attrs(AttrsOf(e) - {"hosted_on"});
      attrs.Note(v, "hosted_on=" + ref.value);
      f := f["attrs" := Obj(attrs.m)];
      DropsOne(HostPass(v, hosts), e, ["attrs", "hosted_on"]);
      DropProvenance(["nodes", id] + ["attrs", "hosted_on"]);
      n := 1;
    }

    method DropHostAt(v: Texts, hosts: set<string>, i: nat, ghost d: Doc) returns (n: nat)
      requires PassAt(HostPass(v, hosts), d, i, members, prov) && i < |Items(d, "nodes")|
      modifies this
      ensures PassAt(HostPass(v, hosts), d, i + 1, members, prov) && n == DanglingAt(hosts, Items(d, "nodes")[i])
    {
      ItemNow(HostPass(v, hosts), d, i, members, prov);
      PassSteps(HostPass(v, hosts), d, i, members, prov);
      var j := members["nodes"].items[i];
      n := 0;
      if j.Obj? {
        var f;
        f, n := RewriteHost(v, hosts, j.members);
        members := members["nodes" := Arr(members["nodes"].items[i := Obj(f)])];
      } else {
        Untouched(HostPass(v, hosts), members, prov, i);
      }
    }

    /** dropDanglingHosts, with the number of references it removes: afterwards every non-empty host of an
        agent or an agent memory names another node that is not a note. */
    method DropDanglingHosts(v: Texts) returns (n: nat)
      modifies this
      ensures View() == HostsDropped(v, old(View()))
      ensures n == Dangling(Hosts(Items(old(View()), "nodes")), Items(old(View()), "nodes"))
    {
      n := 0;
      ghost var d := View();
      var hosts := CollectHosts();
      if "nodes" !in members || !members["nodes"].Arr? {
        return;
      }
      n := DropHosts(v, hosts, d);
    }

    method DropHosts(v: Texts, hosts: set<string>, ghost d: Doc) returns (n: nat)
      requires d == View() && "nodes" in members && members["nodes"].Arr?
      modifies this
      ensures View() == Applied(HostPass(v, hosts), d) && n == Dangling(hosts, Items(d, "nodes"))
    {
      n := 0;
      PassStarts(HostPass(v, hosts), d);
      for i := 0 to |members["nodes"].items|
        invariant PassAt(HostPass(v, hosts), d, i, members, prov)
        invariant n == Dangling(hosts, Items(d, "nodes")[..i])
      {
        var k := DropHostAt(v, hosts, i, d);
        assert Items(d, "nodes")[..i + 1][..i] == Items(d, "nodes")[..i];
        n := n + k;
      }
      assert Items(d, "nodes")[..|Items(d, "nodes")|] == Items(d, "nodes");
      PassEnds(HostPass(v, hosts), d, members, prov);
    }

    // ---- agent identities ------------------------------------------------------------------------

    method CollectIds(coll: string) returns (ids: set<string>)
      ensures ids == Ids(Items(View(), coll))
    {
      ids := {};
      var items := Items(View(), coll);
      for i := 0 to |items|
        invariant ids == Ids(items[..i])
      {
        assert items[..i + 1][..i] == items[..i];
        if items[i].Obj? && IdOf(items[i].members).Some? {
          ids := ids + {IdOf(items[i].members).value};
        }
      }
      assert items[..|items|] == items;
    }

    method CollectUsed() returns (used: set<string>)
      ensures used == Used(View())
    {
      used := CollectIds("nodes");
      var more := CollectIds("edges");
      used := used + more;
      more := CollectIds("groups");
      used := used + more;
      more := CollectIds("findings");
      used := used + more;
      more := CollectIds("identities");
      used := used + more;
    }

    /** The nodes pointed at their identities, which are made when their values are first seen. */
    method PointAgents(mint: Minter, used0: set<string>, nodes: seq<Json>)
      returns (created: map<string, string>, made: seq<(string, string)>, pointed: seq<Json>)
      requires mint == FreeId && MintsFree(mint)
      ensures created == MintAll(mint, used0, nodes).created && made == MintAll(mint, used0, nodes).made
      ensures pointed == ItemsAfter(AssignPass(created), nodes)
    {
      var used := used0;
      created, made, pointed := map[], [], [];
      for i := 0 to |nodes|
        invariant Minted(used, created, made) == MintAll(mint, used0, nodes[..i])
        invariant pointed == ItemsAfter(AssignPass(created), nodes[..i])
      {
        MintStep(mint, used0, nodes, i);
        var j := nodes[i];
        if j.Obj? && Eligible(j.members) && ValueOf(j.members) !in created {
          var value := ValueOf(j.members);
          var id := FindFreeId(used, "ident_" + value);
          NewValueKeeps(nodes[..i], created, value, id);
          used, created, made := used + {id}, created[value := id], made + [(value, id)];
        }
        AssignStep(created, nodes, i);
        if j.Obj? && Eligible(j.members) {
          pointed := pointed + [Obj(j.members["attrs" := Obj(AttrsOf(j.members)["identity_id" := Str(created[ValueOf(j.members)])])])];
        } else {
          pointed := pointed + [j];
        }
      }
      assert nodes[..|nodes|] == nodes;
    }

    /** migrateAgentIdentities. */
    method MigrateAgentIdentities(mint: Minter)
      requires mint == FreeId && MintsFree(mint)
      modifies this`members
      ensures View() == IdentitiesMigrated(mint, old(View()))
    {
      ghost var d := View();
      var used := CollectUsed();
      var nodes := Items(View(), "nodes");
      var created, made, pointed := PointAgents(mint, used, nodes);
      AssignDropsNothing(created, nodes, prov);
      if "nodes" in members && members["nodes"].Arr? {
        members := members["nodes" := Arr(pointed)];
      }
      assert View() == Applied(AssignPass(created), d);
      OtherItems(AssignPass(created), d, "identities");
      if created != map[] {
        members := members["identities" := Arr(Items(View(), "identities") + Entities(made))];
      }
    }
  }

  lemma {:induction false} MintStep(mint: Minter, used: set<string>, nodes: seq<Json>, i: nat)
    requires MintsFree(mint) && i < |nodes|
    ensures MintAll(mint, used, nodes[..i + 1]) == MintOne(mint, MintAll(mint, used, nodes[..i]), nodes[i])
    ensures ValuesOf(nodes[..i], MintAll(mint, used, nodes[..i]).created)
  {
    assert nodes[..i + 1][..i] == nodes[..i];
    MintAllKeeps(mint, used, nodes[..i]);
  }

  lemma {:induction false} AssignStep(created: map<string, string>, nodes: seq<Json>, i: nat)
    requires i < |nodes|
    ensures ItemsAfter(AssignPass(created), nodes[..i + 1])
            == ItemsAfter(AssignPass(created), nodes[..i]) + [ItemAfter(AssignPass(created), nodes[i])]
  {
    assert nodes[..i + 1][..i] == nodes[..i];
  }

  /** A value no node before has does not change what they were given. */
  lemma {:induction false} NewValueKeeps(nodes: seq<Json>, created: map<string, string>, value: string, id: string)
    requires ValuesOf(nodes, created) && value !in created
    ensures ItemsAfter(AssignPass(created[value := id]), nodes) == ItemsAfter(AssignPass(created), nodes)
  {
    forall i | 0 <= i < |nodes|
      ensures ItemsAfter(AssignPass(created[value := id]), nodes)[i] == ItemsAfter(AssignPass(created), nodes)[i]
    {
      ItemAt(AssignPass(created[value := id]), nodes, i);
      ItemAt(AssignPass(created), nodes, i);
      if nodes[i].Obj? && Eligible(nodes[i].members) {
        assert HasValue(nodes, ValueOf(nodes[i].members));
      }
    }
  }

  lemma {:induction false} AssignDropsNothing(created: map<string, string>, items: seq<Json>, prov: Option<Entries>)
    ensures Drops(AssignPass(created), items) == {} && Dropped(prov, {}) == prov
  {
    DroppedNothing(prov);
    if items != [] {
      AssignDropsNothing(created, items[..|items| - 1], prov);
      assert ItemDrops(AssignPass(created), items[|items| - 1]) == {};
    }
  }

  /** An item that is not an object is left alone. */
  lemma {:induction false} Untouched(p: Pass, members: Members, prov: Option<Entries>, i: nat)
    requires p.coll in members && members[p.coll].Arr? && i < |members[p.coll].items| && !members[p.coll].items[i].Obj?
    ensures members[p.coll := Arr(members[p.coll].items[i := ItemAfter(p, members[p.coll].items[i])])] == members
    ensures Dropped(prov, ItemDrops(p, members[p.coll].items[i])) == prov
  {
    DroppedNothing(prov);
    assert members[p.coll].items[i := members[p.coll].items[i]] == members[p.coll].items;
    assert members[p.coll := members[p.coll]] == members;
  }

  lemma {:induction false} DropsOne(p: Pass, e: Members, r: Pointer)
    requires p.removed(e) == {r}
    ensures ItemDrops(p, Obj(e)) == {[p.coll, StringAt(e, "id")] + r}
  {
    assert ItemDrops(p, Obj(e)) == set x | x in {r} :: Address(p, e) + x;
  }

  lemma {:induction false} NodeDrops(v: Texts, e: Members, removed: set<string>)
    requires HasAttrs(e) && removed == AttrsOf(e).Keys - NodeAttrs(v, TypeOf(e), AttrsOf(e)).Keys
    ensures ItemDrops(NodePass(v), Obj(e)) == set k | k in removed :: ["nodes", StringAt(e, "id")] + ["attrs", k]
  {
    var p := NodePass(v);
    var drops := set k | k in removed :: ["nodes", StringAt(e, "id")] + ["attrs", k];
    forall x | x in drops ensures x in ItemDrops(p, Obj(e)) {
      var k :| k in removed && x == ["nodes", StringAt(e, "id")] + ["attrs", k];
      assert ["attrs", k] in p.removed(e);
    }
    forall x | x in ItemDrops(p, Obj(e)) ensures x in drops {
      var r :| r in p.removed(e) && x == Address(p, e) + r;
      var k :| k in removed && r == ["attrs", k];
    }
  }

  // ---- upgrading ---------------------------------------------------------------------------------

  /** One step of the list, on the document it owns. */
  method RunStep(doc: Document, v: Texts, mint: Minter, i: nat)
    requires i < 4 && v.freeKey == FreeKey && mint == FreeId && MintsFree(mint)
    modifies doc
    ensures doc.View() == StepOf(v, mint, i, old(doc.View()))
  {
    if i == 0 {
      doc.members := doc.members[FIELD := Str("1.0")];
    } else {
      var n := doc.Normalize(v);
      if i == 1 {
        doc.MigrateAgentIdentities(mint);
        doc.members := doc.members[FIELD := Str("1.1")];
      } else if i == 2 {
        n := doc.DropDanglingHosts(v);
        doc.members := doc.members[FIELD := Str("1.2")];
      } else {
        doc.members := doc.members[FIELD := Str("1.3")];
      }
    }
  }

  /** UpgradeDoc works on a copy: the given document is not changed. */
  method UpgradeDoc(source: Document, v: Texts, mint: Minter) returns (r: Result<Document, Error>)
    requires v == MigrationTexts() && mint == MigrationMint()
    ensures r.Ok? <==> Upgraded(v, mint, source.View()).Ok?
    ensures r.Err? ==> Upgraded(v, mint, source.View()) == Err(r.error)
    ensures r.Ok? ==> fresh(r.value) && Upgraded(v, mint, source.View()) == Ok(r.value.View())
  {
    var version := VersionOf(source.View());
    if version.Err? {
      return Err(version.error);
    }
    var start := PathFrom(version.value);
    if start.Err? {
      return Err(start.error);
    }
    TextsAreSane();
    var doc := RunFrom(source.View(), v, mint, start.value);
    return Ok(doc);
  }

  method RunFrom(d: Doc, v: Texts, mint: Minter, start: nat) returns (doc: Document)
    requires start <= 4 && v.freeKey == FreeKey && mint == FreeId && MintsFree(mint)
    ensures fresh(doc) && doc.View() == StepsFrom(v, mint, start, d)
  {
    doc := new Document(d);
    for i := start to 4
      invariant StepsFrom(v, mint, i, doc.View()) == StepsFrom(v, mint, start, d)
    {
      ghost var before := doc.View();
      RunStep(doc, v, mint, i);
      assert StepsFrom(v, mint, i, before) == StepsFrom(v, mint, i + 1, doc.View());
    }
  }

  /** What every upgrade guarantees: the current version, a fixpoint, hosts that resolve, and a sidecar that
      stays sound exactly where no key lies below an overwritten value. */
  lemma {:induction false} UpgradeGuarantees(v: Texts, mint: Minter, d: Doc)
    requires v == MigrationTexts() && mint == MigrationMint() && Upgraded(v, mint, d).Ok?
    ensures VersionOf(Upgraded(v, mint, d).value) == Ok(CURRENT)
    ensures Upgraded(v, mint, Upgraded(v, mint, d).value) == Upgraded(v, mint, d)
    ensures SoundDoc(d) ==> (SoundDoc(Upgraded(v, mint, d).value) <==> NoneInTheWay(v, mint, StartOf(VersionOf(d).value).value, d))
    ensures SoundDoc(d) && Tame(d) ==> SoundDoc(Upgraded(v, mint, d).value)
    ensures VersionOf(d) in {Ok("0.9"), Ok("1.0"), Ok("1.1")} || (VersionOf(d) == Ok("1.2") && HostsResolve(Items(d, "nodes"))) ==>
              HostsResolve(Items(Upgraded(v, mint, d).value, "nodes"))
  {
    TextsAreSane();
    UpgradeReachesCurrent(v, mint, d);
    if SoundDoc(d) {
      UpgradeSoundnessForeseen(v, mint, d);
      if Tame(d) {
        UpgradeKeepsSound(v, mint, d);
      }
    }
    if VersionOf(d) != Ok(CURRENT) && (VersionOf(d) == Ok("1.2") ==> HostsResolve(Items(d, "nodes"))) {
      UpgradeResolvesHosts(v, mint, d);
    }
  }

  /** The sidecar of one document that Normalize leaves with a key that no longer resolves. */
  lemma {:induction false} NormalizeCanHideKey(v: Texts)
    requires v == MigrationTexts()
    ensures SoundDoc(NotedOver()) && !SoundDoc(Normalized(v, NotedOver()))
  {
    TextsAreSane();
    FirstNoteFits("kind=gateway");
    NoteHidesKey(v, NotedOver());
  }
}
