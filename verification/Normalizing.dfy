/** The tolerant reading of the 1.0 values (model/migrate/v11.go, v11_attrs.go) on one element, as
    functions of its members, and what it keeps of the paths the sidecar may name. */
module Normalizing {
  import opened Options
  import opened Json
  import opened Text
  import opened Pointers
  import opened Passes

  const MIGRATED_FROM := "x_migrated_from"

  /** The text functions of the rewrites: the protocol enum, its canonical spelling and whether a note is
      due, blank text, the folded purpose, the note text after an entry is added (nothing when it is left
      as it is), and the extension key a purpose moves to. */
  datatype Texts = Texts(
    valid: string -> bool,
    canonical: string -> string,
    noted: string -> bool,
    blank: string -> bool,
    fold: string -> string,
    note: (string, string) -> Option<string>,
    freeKey: (Members, string) -> string)

  /** What the rewrites rely on, one text at a time. */
  ghost predicate Sane(v: Texts) {
    (forall text :: SaneProtocol(v, text)) && (forall m, text :: SaneKey(v, m, text))
  }

  ghost predicate SaneProtocol(v: Texts, text: string) { v.valid("") && v.valid(v.canonical(text)) }

  const REWRITTEN: set<string> := {"purpose", "egress_policy", "kind", "exposure", "authn", "hosted_on", "identity_id", MIGRATED_FROM}

  ghost predicate SaneKey(v: Texts, m: Members, text: string) {
    var k := v.freeKey(m, text);
    k !in REWRITTEN && (k in m ==> m[k] == Str(text))
  }

  // ---- notes -------------------------------------------------------------------------------------

  function Noted(v: Texts, m: Members, entry: string): Members {
    var next := v.note(StringAt(m, MIGRATED_FROM), entry);
    if next.None? then m else m[MIGRATED_FROM := Str(next.value)]
  }

  function NotedAll(v: Texts, m: Members, entries: seq<string>): Members {
    if entries == [] then m else Noted(v, NotedAll(v, m, entries[..|entries| - 1]), entries[|entries| - 1])
  }

  /** Some entry fits as the first note. */
  predicate Fits(v: Texts, entries: seq<string>) {
    exists i :: 0 <= i < |entries| && v.note("", entries[i]).Some?
  }

  /** Notes change nothing but the note member, which they overwrite when it holds no text and one of
      them fits. */
  lemma {:induction false} NotedAllIs(v: Texts, m: Members, entries: seq<string>)
    ensures NotedAll(v, m, entries) - {MIGRATED_FROM} == m - {MIGRATED_FROM}
    ensures MIGRATED_FROM in m ==> MIGRATED_FROM in NotedAll(v, m, entries)
    ensures MIGRATED_FROM in m && !m[MIGRATED_FROM].Str? ==>
              if Fits(v, entries) then NotedAll(v, m, entries)[MIGRATED_FROM].Str?
              else NotedAll(v, m, entries)[MIGRATED_FROM] == m[MIGRATED_FROM]
  {
    if entries != [] {
      var rest, last := entries[..|entries| - 1], entries[|entries| - 1];
      NotedAllIs(v, m, rest);
      var before := NotedAll(v, m, rest);
      assert Noted(v, before, last) - {MIGRATED_FROM} == before - {MIGRATED_FROM};
      assert Fits(v, entries) <==> Fits(v, rest) || v.note("", last).Some? by {
        assert entries == rest + [last];
        if i :| 0 <= i < |rest| && v.note("", rest[i]).Some? {
          assert v.note("", entries[i]).Some?;
        }
        assert entries[|entries| - 1] == last;
      }
    }
  }

  // ---- the narrowed attributes -------------------------------------------------------------------

  const PURPOSES: set<string> := {"operational", "security", "evidence"}
  const AGENT_KINDS: set<string> := {"llm", "orchestrator"}
  const AGENT_EGRESS: set<string> := {"default_deny_allowlist", "default_allow", "undeclared"}
  const TOOL_EGRESS: set<string> := {"default_deny_allowlist", "default_allow", "undeclared", "disabled"}
  const EXPOSURES: set<string> := {"loopback", "private_network", "public"}

  /** The attribute is absent, empty or in its vocabulary. */
  predicate Within(m: Members, key: string, allowed: set<string>) {
    key !in m || (m[key].Str? && (m[key].s == "" || m[key].s in allowed))
  }

  predicate NeedsNarrowing(t: string, m: Members) {
    if t == "log_sink" then !Within(m, "purpose", PURPOSES)
    else if t == "agent" then !(Within(m, "egress_policy", AGENT_EGRESS) && Within(m, "kind", AGENT_KINDS))
    else if t == "mcp_server" then !Within(m, "exposure", EXPOSURES)
    else if t == "tool" then !Within(m, "egress_policy", TOOL_EGRESS)
    else false
  }

  function BoolText(b: bool): string { if b then "true" else "false" }

  predicate HasBool(m: Members, key: string) { key in m && m[key].Bool? }

  predicate HasText(m: Members, key: string) { key in m && m[key].Str? }

  /** dropBoolean, without its note. */
  function WithoutBool(m: Members, key: string): Members {
    if HasBool(m, key) then m - {key} else m
  }

  function BoolNotes(m: Members, key: string): seq<string> {
    if HasBool(m, key) then [key + "=" + BoolText(m[key].b)] else []
  }

  predicate StrayKind(m: Members) { HasText(m, "kind") && m["kind"].s != "" && m["kind"].s !in AGENT_KINDS }

  /** narrowPurpose, without its note. */
  function PurposeNarrowed(v: Texts, m: Members): Members {
    if !HasText(m, "purpose") then m
    else
      var text := m["purpose"].s;
      if v.fold(text) in PURPOSES then m["purpose" := Str(v.fold(text))]
      else
        var rest := m - {"purpose"};
        if v.blank(text) then rest else rest[v.freeKey(rest, text) := Str(text)]
  }

  predicate OldExposure(m: Members) { HasText(m, "exposure") && (m["exposure"].s == "internal" || m["exposure"].s == "unknown") }

  /** The rewrite of the narrowed attributes, without the notes. */
  function Plain(v: Texts, t: string, m: Members): Members {
    if !NeedsNarrowing(t, m) then m
    else if t == "log_sink" then PurposeNarrowed(v, m)
    else if t == "agent" then (var rest := WithoutBool(m, "egress_policy"); if StrayKind(m) then rest - {"kind"} else rest)
    else if t == "tool" then WithoutBool(m, "egress_policy")
    else if OldExposure(m) then
      (if m["exposure"].s == "internal" then m["exposure" := Str("private_network")] else m - {"exposure"})
    else m
  }

  /** The notes the rewrite leaves, in order; there is one for each rewritten value. */
  function RewriteNotes(t: string, m: Members): seq<string> {
    if !NeedsNarrowing(t, m) then []
    else if t == "log_sink" then (if HasText(m, "purpose") then ["purpose=" + m["purpose"].s] else [])
    else if t == "agent" then BoolNotes(m, "egress_policy") + (if StrayKind(m) then ["kind=" + m["kind"].s] else [])
    else if t == "tool" then BoolNotes(m, "egress_policy")
    else if OldExposure(m) then ["exposure=" + m["exposure"].s]
    else []
  }

  /** NormalizeNodeAttrs. */
  function Narrowed(v: Texts, t: string, m: Members): Members {
    NotedAll(v, Plain(v, t, m), RewriteNotes(t, m))
  }

  /** A single authn value becomes a one-item list; an empty one goes. */
  function AuthnListed(m: Members): Members {
    if !HasText(m, "authn") then m
    else if m["authn"].s == "" then m - {"authn"}
    else m["authn" := Arr([m["authn"]])]
  }

  function NodeAttrs(v: Texts, t: string, m: Members): Members { AuthnListed(Narrowed(v, t, m)) }

  function NodeRewrites(t: string, m: Members): nat { |RewriteNotes(t, m)| + if HasText(m, "authn") then 1 else 0 }

  // ---- what the rewrite of a node does to each attribute -----------------------------------------

  /** Outside the note, an attribute that stays keeps its value or had a text. */
  lemma {:induction false} PlainKeeps(v: Texts, t: string, m: Members, k: string)
    requires Sane(v) && k in m && k in Plain(v, t, m)
    ensures Plain(v, t, m)[k] == m[k] || (m[k].Str? && k != MIGRATED_FROM && k != "authn")
  {
    if t == "log_sink" && HasText(m, "purpose") {
      assert SaneKey(v, m - {"purpose"}, m["purpose"].s);
    }
  }

  lemma {:induction false} PlainKeepsOthers(v: Texts, t: string, m: Members)
    requires Sane(v)
    ensures MIGRATED_FROM in Plain(v, t, m) <==> MIGRATED_FROM in m
    ensures "authn" in Plain(v, t, m) <==> "authn" in m
    ensures "authn" in m ==> Plain(v, t, m)["authn"] == m["authn"]
  {
    if t == "log_sink" && HasText(m, "purpose") {
      assert SaneKey(v, m - {"purpose"}, m["purpose"].s);
    }
  }

  lemma {:induction false} NarrowedKeeps(v: Texts, t: string, m: Members, k: string)
    requires Sane(v) && k in m && k in Narrowed(v, t, m)
    ensures k != MIGRATED_FROM ==> Narrowed(v, t, m)[k] == m[k] || (m[k].Str? && k != "authn")
    ensures k == MIGRATED_FROM && !m[k].Str? ==>
              if Fits(v, RewriteNotes(t, m)) then Narrowed(v, t, m)[k].Str? else Narrowed(v, t, m)[k] == m[k]
  {
    var plain := Plain(v, t, m);
    NotedAllIs(v, plain, RewriteNotes(t, m));
    PlainKeepsOthers(v, t, m);
    if k != MIGRATED_FROM {
      assert k in Narrowed(v, t, m) - {MIGRATED_FROM};
      assert k in plain - {MIGRATED_FROM};
      assert Narrowed(v, t, m)[k] == plain[k];
      PlainKeeps(v, t, m, k);
    } else {
      PlainKeeps(v, t, m, k);
    }
  }

  lemma {:induction false} NodeAttrKeeps(v: Texts, t: string, m: Members, k: string)
    requires Sane(v) && k in m && k in NodeAttrs(v, t, m)
    ensures k != MIGRATED_FROM ==> NodeAttrs(v, t, m)[k] == m[k] || m[k].Str?
    ensures k == MIGRATED_FROM && !m[k].Str? ==>
              if Fits(v, RewriteNotes(t, m)) then NodeAttrs(v, t, m)[k].Str? else NodeAttrs(v, t, m)[k] == m[k]
  {
    NarrowedKeeps(v, t, m, k);
  }

  // ---- rewriting again ---------------------------------------------------------------------------

  predicate Agree(m: Members, n: Members, k: string) {
    (k in m <==> k in n) && (k in m && k in n ==> m[k] == n[k])
  }

  lemma {:induction false} EntriesDepend(t: string, m: Members, n: Members)
    requires Agree(m, n, "purpose") && Agree(m, n, "egress_policy") && Agree(m, n, "kind") && Agree(m, n, "exposure")
    ensures RewriteNotes(t, m) == RewriteNotes(t, n)
  {}

  lemma {:induction false} NoEntriesNoRewrite(v: Texts, t: string, m: Members)
    requires RewriteNotes(t, m) == []
    ensures Plain(v, t, m) == m && Narrowed(v, t, m) == m
  {
    if t == "agent" {
      assert BoolNotes(m, "egress_policy") == [];
    }
  }

  lemma {:induction false} PlainSettles(v: Texts, t: string, m: Members)
    requires Sane(v)
    ensures RewriteNotes(t, Plain(v, t, m)) == []
  {
    if t == "log_sink" && HasText(m, "purpose") {
      assert SaneKey(v, m - {"purpose"}, m["purpose"].s);
    }
  }

  /** NormalizeNodeAttrs and the authn list leave nothing to rewrite. */
  lemma {:induction false} NodeSettles(v: Texts, t: string, m: Members)
    requires Sane(v)
    ensures NodeAttrs(v, t, NodeAttrs(v, t, m)) == NodeAttrs(v, t, m) && NodeRewrites(t, NodeAttrs(v, t, m)) == 0
  {
    var plain, narrowed, after := Plain(v, t, m), Narrowed(v, t, m), NodeAttrs(v, t, m);
    PlainSettles(v, t, m);
    NotedAllIs(v, plain, RewriteNotes(t, m));
    forall k | k != MIGRATED_FROM && k != "authn" ensures Agree(plain, after, k) {
      assert k in plain - {MIGRATED_FROM} <==> k in narrowed - {MIGRATED_FROM};
    }
    EntriesDepend(t, plain, after);
    NoEntriesNoRewrite(v, t, after);
  }

  /** Nothing is rewritten exactly when there is nothing to count. */
  lemma {:induction false} NoRewrites(v: Texts, t: string, m: Members)
    requires NodeRewrites(t, m) == 0
    ensures NodeAttrs(v, t, m) == m
  {
    NoEntriesNoRewrite(v, t, m);
  }

  // ---- the node pass -----------------------------------------------------------------------------

  predicate HasAttrs(e: Members) { "attrs" in e && e["attrs"].Obj? }

  function AttrsOf(e: Members): Members { ObjectAt(e, "attrs") }

  function TypeOf(e: Members): string { StringAt(e, "type") }

  function NodeRewrite(v: Texts, e: Members): Members {
    if HasAttrs(e) then e["attrs" := Obj(NodeAttrs(v, TypeOf(e), AttrsOf(e)))] else e
  }

  function NodeRemoved(v: Texts, e: Members): set<Pointer> {
    set k | k in AttrsOf(e) && k !in NodeAttrs(v, TypeOf(e), AttrsOf(e)) && HasAttrs(e) :: ["attrs", k]
  }

  /** The note is written over whatever x_migrated_from holds, when one of the entries fits. */
  function NodeLost(v: Texts, e: Members): set<Pointer> {
    if HasAttrs(e) && Fits(v, RewriteNotes(TypeOf(e), AttrsOf(e))) then {["attrs", MIGRATED_FROM]} else {}
  }

  function NodePass(v: Texts): Pass {
    Pass("nodes", e => NodeRewrite(v, e), e => NodeRemoved(v, e), e => NodeLost(v, e))
  }

  lemma {:induction false} HoldsAttr(e: Members, q: Pointer)
    requires Holds(Obj(e), q) && |q| >= 2 && q[0] == "attrs" && HasAttrs(e)
    ensures q[1] in AttrsOf(e) && Holds(AttrsOf(e)[q[1]], q[2..])
  {
    assert q[1..][0] == q[1] && q[1..][1..] == q[2..];
  }

  lemma {:induction false} AttrHolds(e: Members, q: Pointer)
    requires |q| >= 2 && q[0] == "attrs" && HasAttrs(e) && q[1] in AttrsOf(e)
    ensures Holds(Obj(e), q) <==> Holds(AttrsOf(e)[q[1]], q[2..])
  {
    assert q[1..][0] == q[1] && q[1..][1..] == q[2..];
  }

  lemma {:induction false} BelowOne(p: Pointer, q: Pointer)
    ensures BelowAny({p}, q) <==> p < q
  {
    assert p in {p};
  }

  lemma {:induction false} PairPrefix(k: string, q: Pointer)
    ensures ["attrs", k] <= q <==> |q| >= 2 && q[0] == "attrs" && q[1] == k
  {
    if |q| >= 2 && q[0] == "attrs" && q[1] == k {
      assert q[..2] == ["attrs", k];
    }
  }

  lemma {:induction false} NodePathKept(v: Texts, e: Members, q: Pointer)
    requires Sane(v)
    ensures PathKept(NodePass(v), e, q)
  {
    var f := NodeRewrite(v, e);
    if Holds(Obj(e), q) && !UnderAny(NodeRemoved(v, e), q) {
      PairPrefix(MIGRATED_FROM, q);
      BelowOne(["attrs", MIGRATED_FROM], q);
      if !HasAttrs(e) {
        assert f == e;
      } else if |q| < 2 || q[0] != "attrs" {
        assert Holds(Obj(f), q);
      } else {
        NodeAttrKept(v, e, q);
      }
    }
  }

  lemma {:induction false} NodeAttrKept(v: Texts, e: Members, q: Pointer)
    requires Sane(v) && HasAttrs(e) && |q| >= 2 && q[0] == "attrs"
    requires Holds(Obj(e), q) && !UnderAny(NodeRemoved(v, e), q)
    ensures Holds(Obj(NodeRewrite(v, e)), q) <==>
            !(|q| > 2 && q[1] == MIGRATED_FROM && Fits(v, RewriteNotes(TypeOf(e), AttrsOf(e))))
  {
    var f, k, m, n := NodeRewrite(v, e), q[1], AttrsOf(e), NodeAttrs(v, TypeOf(e), AttrsOf(e));
    HoldsAttr(e, q);
    PairPrefix(k, q);
    assert AttrsOf(f) == n;
    assert k !in n ==> ["attrs", k] in NodeRemoved(v, e);
    NodeAttrKeeps(v, TypeOf(e), m, k);
    AttrHolds(e, q);
    AttrHolds(f, q);
  }

  /** The rewrite of a node is a well-behaved pass. */
  lemma {:induction false} NodePassBehaves(v: Texts)
    requires Sane(v)
    ensures WellBehaved(NodePass(v)) && forall e :: SettlesOn(NodePass(v), e)
  {
    var p := NodePass(v);
    forall e ensures PathsKept(p, e) {
      forall q ensures PathKept(p, e, q) {
        NodePathKept(v, e, q);
      }
    }
    forall e, f ensures Apart(p, e, f) {
      NodeApart(v, e, f);
    }
    forall e ensures SettlesOn(p, e) {
      NodeSettlesOn(v, e);
    }
  }

  lemma {:induction false} NodeApart(v: Texts, e: Members, f: Members)
    requires Sane(v)
    ensures Apart(NodePass(v), e, f)
  {
    var m := AttrsOf(e);
    var plain := Plain(v, TypeOf(e), m);
    NotedAllIs(v, plain, RewriteNotes(TypeOf(e), m));
    PlainKeepsOthers(v, TypeOf(e), m);
    forall r | r in NodeRemoved(v, e) ensures r[1] != MIGRATED_FROM {
      var k :| k in m && k !in NodeAttrs(v, TypeOf(e), m) && ["attrs", k] == r;
      assert r[1] == k;
    }
    forall r, l | r in NodeRemoved(v, e) && l in NodeLost(v, f) ensures !(r <= l) && !(l <= r) {
      assert |r| == 2 && |l| == 2;
      assert l[1] == MIGRATED_FROM;
      assert r <= l ==> r == l;
      assert l <= r ==> r == l;
    }
  }

  lemma {:induction false} NodeSettlesOn(v: Texts, e: Members)
    requires Sane(v)
    ensures SettlesOn(NodePass(v), e)
  {
    if HasAttrs(e) {
      NodeSettles(v, TypeOf(e), AttrsOf(e));
      var f := NodeRewrite(v, e);
      assert TypeOf(f) == TypeOf(e) && AttrsOf(f) == NodeAttrs(v, TypeOf(e), AttrsOf(e));
      assert f["attrs" := f["attrs"]] == f;
    }
  }

  // ---- the edge pass -----------------------------------------------------------------------------

  predicate StrayProtocol(v: Texts, e: Members) { HasText(e, "protocol") && !v.valid(e["protocol"].s) }

  predicate ProtocolNoted(v: Texts, e: Members)
    requires HasText(e, "protocol")
  {
    v.noted(e["protocol"].s) && !v.blank(e["protocol"].s)
  }

  function ProtocolEntry(e: Members): string
    requires HasText(e, "protocol")
  {
    "protocol=" + e["protocol"].s
  }

  /** note: on the element's attrs, or on new ones when it has none. */
  function NotedOn(v: Texts, e: Members, entry: string): Members {
    e["attrs" := Obj(Noted(v, AttrsOf(e), entry))]
  }

  function ProtocolSet(v: Texts, e: Members): Members
    requires HasText(e, "protocol")
  {
    var value := v.canonical(e["protocol"].s);
    if value == "" then e - {"protocol"} else e["protocol" := Str(value)]
  }

  function EdgeRewrite(v: Texts, e: Members): Members {
    if !StrayProtocol(v, e) then e
    else if ProtocolNoted(v, e) then NotedOn(v, ProtocolSet(v, e), ProtocolEntry(e))
    else ProtocolSet(v, e)
  }

  function EdgeRemoved(v: Texts, e: Members): set<Pointer> {
    if StrayProtocol(v, e) && v.canonical(e["protocol"].s) == "" then {["protocol"]} else {}
  }

  /** The note goes into new attrs when the edge's are not an object, else over its x_migrated_from. */
  function EdgeLost(v: Texts, e: Members): set<Pointer> {
    if !StrayProtocol(v, e) || !ProtocolNoted(v, e) then {}
    else if !HasAttrs(e) then {["attrs"]}
    else if v.note(StringAt(AttrsOf(e), MIGRATED_FROM), ProtocolEntry(e)).Some? then {["attrs", MIGRATED_FROM]}
    else {}
  }

  function EdgePass(v: Texts): Pass {
    Pass("edges", e => EdgeRewrite(v, e), e => EdgeRemoved(v, e), e => EdgeLost(v, e))
  }

  lemma {:induction false} SinglePrefix(k: string, q: Pointer)
    ensures [k] <= q <==> q != [] && q[0] == k
  {
    if q != [] && q[0] == k {
      assert q[..1] == [k];
    }
  }

  lemma {:induction false} UnderOne(p: Pointer, q: Pointer)
    ensures UnderAny({p}, q) <==> p <= q
  {
    assert p in {p};
  }

  lemma {:induction false} EdgePathKept(v: Texts, e: Members, q: Pointer)
    requires Sane(v)
    ensures PathKept(EdgePass(v), e, q)
  {
    if StrayProtocol(v, e) && Holds(Obj(e), q) && q != [] {
      var set_ := ProtocolSet(v, e);
      SinglePrefix("protocol", q);
      UnderOne(["protocol"], q);
      SinglePrefix("attrs", q);
      BelowOne(["attrs"], q);
      BelowOne(["attrs", MIGRATED_FROM], q);
      PairPrefix(MIGRATED_FROM, q);
      if q[0] == "attrs" {
        assert set_["attrs"] == e["attrs"];
        if ProtocolNoted(v, e) {
          EdgeAttrKept(v, e, q);
        }
      } else if q[0] == "protocol" {
        assert Holds(e["protocol"], q[1..]);
      }
    }
  }

  lemma {:induction false} EdgeAttrKept(v: Texts, e: Members, q: Pointer)
    requires Sane(v) && StrayProtocol(v, e) && ProtocolNoted(v, e) && q != [] && q[0] == "attrs" && Holds(Obj(e), q)
    ensures HasAttrs(e) ==>
              (Holds(Obj(EdgeRewrite(v, e)), q) <==>
               !(|q| > 2 && q[1] == MIGRATED_FROM && v.note(StringAt(AttrsOf(e), MIGRATED_FROM), ProtocolEntry(e)).Some?))
    ensures !HasAttrs(e) ==> (Holds(Obj(EdgeRewrite(v, e)), q) <==> |q| == 1)
  {
    var f := EdgeRewrite(v, e);
    var n := Noted(v, AttrsOf(e), ProtocolEntry(e));
    assert AttrsOf(ProtocolSet(v, e)) == AttrsOf(e);
    assert HasAttrs(f) && AttrsOf(f) == n;
    if |q| == 1 {
      assert q[1..] == [];
    } else if HasAttrs(e) {
      HoldsAttr(e, q);
      AttrHolds(f, q);
    } else {
      NoTextPath(e, q);
    }
  }

  /** Attrs that are no object hold array items at most, and no index spells the note member. */
  lemma {:induction false} NoTextPath(e: Members, q: Pointer)
    requires |q| >= 2 && q[0] == "attrs" && !HasAttrs(e) && Holds(Obj(e), q)
    ensures q[1] != MIGRATED_FROM
  {
    var i := IndexOf(q[1..][0], |e["attrs"].items|);
    assert Itoa(i.value) == q[1];
    assert 'x' !in q[1];
    assert MIGRATED_FROM[0] == 'x';
  }

  lemma {:induction false} EdgeApart(v: Texts, e: Members, f: Members)
    ensures Apart(EdgePass(v), e, f)
  {
    forall r, l | r in EdgeRemoved(v, e) && l in EdgeLost(v, f) ensures !(r <= l) && !(l <= r) {
      assert r[0] == "protocol" && l[0] == "attrs";
    }
  }

  lemma {:induction false} EdgeSettlesOn(v: Texts, e: Members)
    requires Sane(v)
    ensures SettlesOn(EdgePass(v), e)
  {
    if StrayProtocol(v, e) {
      assert SaneProtocol(v, e["protocol"].s);
      assert !StrayProtocol(v, ProtocolSet(v, e));
    }
  }

  /** The rewrite of an edge is a well-behaved pass. */
  lemma {:induction false} EdgePassBehaves(v: Texts)
    requires Sane(v)
    ensures WellBehaved(EdgePass(v)) && forall e :: SettlesOn(EdgePass(v), e)
  {
    var p := EdgePass(v);
    forall e ensures PathsKept(p, e) {
      forall q ensures PathKept(p, e, q) {
        EdgePathKept(v, e, q);
      }
    }
    forall e, f ensures Apart(p, e, f) {
      EdgeApart(v, e, f);
    }
    forall e ensures SettlesOn(p, e) {
      EdgeSettlesOn(v, e);
    }
  }

  // ---- Normalize ---------------------------------------------------------------------------------

  /** Normalize: the edges, then the nodes. */
  function Normalized(v: Texts, d: Doc): Doc { Applied(NodePass(v), Applied(EdgePass(v), d)) }

  lemma {:induction false} OtherItems(p: Pass, d: Doc, coll: string)
    requires coll != p.coll
    ensures Items(Applied(p, d), coll) == Items(d, coll)
  {}

  lemma {:induction false} OtherDrops(p: Pass, d: Doc, k: Pointer)
    requires |k| >= 1 && k[0] != p.coll
    ensures k in Keys(Applied(p, d)) <==> k in Keys(d)
    ensures KeyResolves(Applied(p, d), k) <==> KeyResolves(d, k)
  {
    if p.coll in d.members && d.members[p.coll].Arr? {
      var drops := Drops(p, Items(d, p.coll));
      DroppedKeys(d.prov, drops, d, Applied(p, d));
      DropsHead(p, Items(d, p.coll), k);
    }
  }

  lemma {:induction false} DropsHead(p: Pass, items: seq<Json>, k: Pointer)
    ensures UnderAny(Drops(p, items), k) ==> |k| >= 2 && k[0] == p.coll
  {
    if UnderAny(Drops(p, items), k) {
      var e, r := DropsAre(p, items, k);
      assert (Address(p, e) + r)[0] == p.coll;
    }
  }

  lemma {:induction false} SameLosses(p: Pass, q: Pass, d: Doc)
    requires p.coll != q.coll
    ensures NoneLost(q, Applied(p, d)) <==> NoneLost(q, d)
  {
    OtherItems(p, d, q.coll);
    MidKeys(p, d);
    forall k | Loses(q, d, k) ensures k in Keys(Applied(p, d)) <==> k in Keys(d) {
      OtherDrops(p, d, k);
    }
    forall k ensures Loses(q, Applied(p, d), k) <==> Loses(q, d, k) {}
  }

  /** A key of another collection that does not resolve still does not, after a pass. */
  lemma {:induction false} UnsoundStays(p: Pass, q: Pass, d: Doc)
    requires WellBehaved(p) && WellBehaved(q) && p.coll != q.coll && SoundDoc(d) && !SoundDoc(Applied(p, d))
    ensures !SoundDoc(Applied(q, Applied(p, d)))
  {
    var mid := Applied(p, d);
    var k :| k in Keys(mid) && !KeyResolves(mid, k);
    MidKeys(p, d);
    assert KeyResolves(d, k);
    if k[0] != p.coll {
      OtherDrops(p, d, k);
    }
    OtherDrops(q, mid, k);
  }

  /** Normalize keeps a sound sidecar sound exactly when no stored key lies below a value it overwrites:
      the x_migrated_from of a rewritten element, or the attrs of a noted edge that are not an object. */
  lemma {:induction false} NormalizeKeepsSound(v: Texts, d: Doc)
    requires Sane(v) && SoundDoc(d)
    ensures SoundDoc(Normalized(v, d)) <==> NoneLost(EdgePass(v), d) && NoneLost(NodePass(v), d)
  {
    var edges, nodes := EdgePass(v), NodePass(v);
    var mid := Applied(edges, d);
    EdgePassBehaves(v);
    NodePassBehaves(v);
    PassKeepsSound(edges, d);
    if SoundDoc(mid) {
      PassKeepsSound(nodes, mid);
      SameLosses(edges, nodes, d);
    } else {
      UnsoundStays(edges, nodes, d);
    }
  }

  lemma {:induction false} MidKeys(p: Pass, d: Doc)
    ensures Keys(Applied(p, d)) <= Keys(d)
  {
    if p.coll in d.members && d.members[p.coll].Arr? {
      DroppedKeys(d.prov, Drops(p, Items(d, p.coll)), d, Applied(p, d));
    }
  }

  /** Normalize is idempotent. */
  lemma {:induction false} NormalizeSettles(v: Texts, d: Doc)
    requires Sane(v)
    ensures Normalized(v, Normalized(v, d)) == Normalized(v, d)
  {
    var edges, nodes := EdgePass(v), NodePass(v);
    var mid := Applied(edges, d);
    EdgePassBehaves(v);
    NodePassBehaves(v);
    PassSettles(edges, d);
    PassSettles(nodes, mid);
    EdgesAreSettled(v, d, mid);
  }

  /** The edges of a document whose edge pass has run, in any document with the same edges. */
  lemma {:induction false} EdgesAreSettled(v: Texts, d: Doc, mid: Doc)
    requires Sane(v) && mid == Applied(EdgePass(v), d)
    ensures Applied(EdgePass(v), Applied(NodePass(v), mid)) == Applied(NodePass(v), mid)
  {
    var edges, nodes := EdgePass(v), NodePass(v);
    var after := Applied(nodes, mid);
    EdgePassBehaves(v);
    OtherItems(nodes, mid, "edges");
    if "edges" in d.members && d.members["edges"].Arr? {
      ItemsSettle(edges, Items(d, "edges"));
      DroppedNothing(after.prov);
      assert after.members["edges" := Arr(ItemsAfter(edges, Items(after, "edges")))] == after.members;
    }
  }

  // ---- counting ----------------------------------------------------------------------------------

  function EdgeCount(v: Texts, j: Json): nat { if j.Obj? && StrayProtocol(v, j.members) then 1 else 0 }

  function NodeCount(j: Json): nat {
    if j.Obj? && HasAttrs(j.members) then NodeRewrites(TypeOf(j.members), AttrsOf(j.members)) else 0
  }

  function EdgeCounts(v: Texts, items: seq<Json>): nat {
    if items == [] then 0 else EdgeCounts(v, items[..|items| - 1]) + EdgeCount(v, items[|items| - 1])
  }

  function NodeCounts(items: seq<Json>): nat {
    if items == [] then 0 else NodeCounts(items[..|items| - 1]) + NodeCount(items[|items| - 1])
  }

  /** How many values Normalize rewrites. */
  function Rewrites(v: Texts, d: Doc): nat { EdgeCounts(v, Items(d, "edges")) + NodeCounts(Items(d, "nodes")) }

  lemma {:induction false} EdgesCountNothing(v: Texts, items: seq<Json>)
    requires Sane(v)
    ensures EdgeCounts(v, ItemsAfter(EdgePass(v), items)) == 0
    ensures EdgeCounts(v, items) == 0 ==> ItemsAfter(EdgePass(v), items) == items && Drops(EdgePass(v), items) == {}
  {
    if items != [] {
      var rest, last := items[..|items| - 1], items[|items| - 1];
      EdgesCountNothing(v, rest);
      assert ItemsAfter(EdgePass(v), items)[..|rest|] == ItemsAfter(EdgePass(v), rest);
      if last.Obj? && StrayProtocol(v, last.members) {
        assert SaneProtocol(v, last.members["protocol"].s);
      }
      assert EdgeCount(v, last) == 0 ==> ItemDrops(EdgePass(v), last) == {};
    }
  }

  lemma {:induction false} NodesCountNothing(v: Texts, items: seq<Json>)
    requires Sane(v)
    ensures NodeCounts(ItemsAfter(NodePass(v), items)) == 0
    ensures NodeCounts(items) == 0 ==> ItemsAfter(NodePass(v), items) == items && Drops(NodePass(v), items) == {}
  {
    if items != [] {
      var rest, last := items[..|items| - 1], items[|items| - 1];
      NodesCountNothing(v, rest);
      assert ItemsAfter(NodePass(v), items)[..|rest|] == ItemsAfter(NodePass(v), rest);
      NodeCountsNothing(v, last);
    }
  }

  lemma {:induction false} NodeCountsNothing(v: Texts, j: Json)
    requires Sane(v)
    ensures NodeCount(ItemAfter(NodePass(v), j)) == 0
    ensures NodeCount(j) == 0 ==> ItemAfter(NodePass(v), j) == j && ItemDrops(NodePass(v), j) == {}
  {
    if j.Obj? && HasAttrs(j.members) {
      var e := j.members;
      NodeSettles(v, TypeOf(e), AttrsOf(e));
      var f := NodeRewrite(v, e);
      assert TypeOf(f) == TypeOf(e) && AttrsOf(f) == NodeAttrs(v, TypeOf(e), AttrsOf(e));
      if NodeCount(j) == 0 {
        NoRewrites(v, TypeOf(e), AttrsOf(e));
        assert e["attrs" := e["attrs"]] == e;
        assert NodeRemoved(v, e) == {};
      }
    }
  }

  /** A second run rewrites nothing, and a run that counts nothing changes nothing. */
  lemma {:induction false} NormalizeCounts(v: Texts, d: Doc)
    requires Sane(v)
    ensures Rewrites(v, Normalized(v, d)) == 0
    ensures Rewrites(v, d) == 0 ==> Normalized(v, d) == d
  {
    var mid := Applied(EdgePass(v), d);
    EdgesCountNothing(v, Items(d, "edges"));
    OtherItems(EdgePass(v), d, "nodes");
    NodesCountNothing(v, Items(d, "nodes"));
    OtherItems(NodePass(v), mid, "edges");
    if Rewrites(v, d) == 0 {
      NothingApplied(EdgePass(v), d);
      NothingApplied(NodePass(v), d);
    }
  }

  lemma {:induction false} NothingApplied(p: Pass, d: Doc)
    requires ItemsAfter(p, Items(d, p.coll)) == Items(d, p.coll) && Drops(p, Items(d, p.coll)) == {}
    ensures Applied(p, d) == d
  {
    DroppedNothing(d.prov);
    if p.coll in d.members {
      assert d.members[p.coll := d.members[p.coll]] == d.members;
    }
  }
}
