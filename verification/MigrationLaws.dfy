/** What the migrations write: each rewritten value, note, host and identity on the JSON of an element, with the
    text functions they use (model/migrate). */
module MigrationLaws {
  import opened Options
  import opened Json
  import opened Text
  import opened TextLaws
  import opened Pointers
  import opened Passes
  import opened Normalizing
  import opened Migrating
  import opened Spellings
  import opened Upgrades

  // ---- notes -------------------------------------------------------------------------------------

  /** What notes leave in x_migrated_from, entry by entry: an entry that is listed already or would take the text
      past two thousand characters is left out. */
  function Note(prev: string, entry: string): string {
    if prev == "" then (if |entry| > 2000 then prev else entry)
    else if entry in SplitNotes(prev) || |prev| + 2 + |entry| > 2000 then prev
    else prev + "; " + entry
  }

  /** Every other attribute is as it was, and the note member is the text with the entry; where the entry is left
      out it is untouched. */
  lemma {:induction false} NoteIsWritten(m: Members, entry: string)
    ensures var r := Noted(MigrationTexts(), m, entry);
            r - {"x_migrated_from"} == m - {"x_migrated_from"}
            && StringAt(r, "x_migrated_from") == Note(StringAt(m, "x_migrated_from"), entry)
            && (r != m ==> "x_migrated_from" in r && r["x_migrated_from"].Str?)
            && (StringAt(r, "x_migrated_from") == StringAt(m, "x_migrated_from") && entry != "" ==> r == m)
  {
    var prev := StringAt(m, "x_migrated_from");
    NoteExtends(prev, entry);
    NoteIs(prev, entry);
  }

  lemma {:induction false} NoteIs(prev: string, entry: string)
    ensures NoteText(prev, entry) == if Note(prev, entry) == prev && !(prev == "" && entry == "") then None else Some(Note(prev, entry))
  {
    assert [] + [entry] == [entry];
    if prev != "" {
      JoinSplitNotes(prev);
      JoinMore(SplitNotes(prev), entry);
      assert |prev + "; " + entry| == |prev| + 2 + |entry|;
      assert prev + "; " + entry != prev;
    }
  }

  /** No entry of a note holds the separator, and the entries make up the note. */
  lemma {:induction false} NotesSplit(s: string)
    ensures JoinNotes(SplitNotes(s)) == s
    ensures forall part | part in SplitNotes(s) :: WithoutSeparator(part)
  {
    JoinSplitNotes(s);
    PartsAreFree(s);
  }

  predicate WithoutSeparator(s: string) { forall i | 0 < i < |s| :: !(s[i - 1] == ';' && s[i] == ' ') }

  lemma {:induction false} PartsAreFree(s: string)
    ensures forall part | part in SplitNotes(s) :: WithoutSeparator(part)
    ensures SplitNotes(s)[0] == "" || SplitNotes(s)[0][0] == s[0]
    ensures SplitNotes(s)[0] <= s
  {
    if s != "" {
      if |s| >= 2 && s[0] == ';' && s[1] == ' ' {
        PartsAreFree(s[2..]);
        assert SplitNotes(s) == [""] + SplitNotes(s[2..]);
      } else {
        PartsAreFree(s[1..]);
        var rest := SplitNotes(s[1..]);
        var first := [s[0]] + rest[0];
        assert first[1..] == rest[0] && rest[0] in rest;
        assert WithoutSeparator(first) by {
          forall i | 0 < i < |first| ensures !(first[i - 1] == ';' && first[i] == ' ') {
            assert i > 1 ==> first[i - 1] == rest[0][i - 2] && first[i] == rest[0][i - 1];
            assert i == 1 ==> first[1] == rest[0][0] == s[1..][0];
          }
        }
        assert s == [s[0]] + s[1..];
      }
    }
  }

  // ---- attributes of a node ----------------------------------------------------------------------

  predicate TextAt(m: Members, k: string, s: string) { k in m && m[k] == Str(s) }

  /** Every key outside the list is as it was. */
  predicate SameBut(m: Members, r: Members, keys: set<string>) { m - keys == r - keys }

  lemma SameButFrom(m: Members, r: Members, keys: set<string>)
    requires forall k | k !in keys :: Agree(m, r, k)
    ensures SameBut(m, r, keys)
  {
    assert (m - keys).Keys == (r - keys).Keys;
  }

  /** Notes aside, the rewrite of the attributes is what Plain says. */
  lemma {:induction false} OnlyNoted(v: Texts, t: string, m: Members)
    requires Sane(v) && "authn" !in m
    ensures forall k | k != "x_migrated_from" :: Agree(Plain(v, t, m), NodeAttrs(v, t, m), k)
    ensures RewriteNotes(t, m) == [] ==> NodeAttrs(v, t, m) == m
  {
    var plain, narrowed := Plain(v, t, m), Narrowed(v, t, m);
    PlainKeepsOthers(v, t, m);
    NotedAllIs(v, plain, RewriteNotes(t, m));
    AgreeOutside(plain, narrowed);
    assert Agree(plain, narrowed, "authn");
    assert AuthnListed(narrowed) == narrowed;
    if RewriteNotes(t, m) == [] {
      NoEntriesNoRewrite(v, t, m);
    }
  }

  lemma {:induction false} NotedToo(m: Members, plain: Members, r: Members, keys: set<string>)
    requires SameBut(m, plain, keys) && forall k | k != "x_migrated_from" :: Agree(plain, r, k)
    ensures SameBut(m, r, keys + {"x_migrated_from"})
  {
    forall k | k !in keys + {"x_migrated_from"} ensures Agree(m, r, k) {
      assert k in m - keys <==> k in plain - keys;
      assert Agree(plain, r, k);
    }
    SameButFrom(m, r, keys + {"x_migrated_from"});
  }

  lemma AgreeOutside(m: Members, r: Members)
    requires r - {MIGRATED_FROM} == m - {MIGRATED_FROM}
    ensures forall k | k != MIGRATED_FROM :: Agree(m, r, k)
  {
    forall k | k != MIGRATED_FROM ensures Agree(m, r, k) {
      assert k in m - {MIGRATED_FROM} <==> k in r - {MIGRATED_FROM};
    }
  }

  /** An agent loses an egress policy that is a boolean and a kind outside its vocabulary. */
  predicate AgentLoses(m: Members, r: Members) {
    (if "egress_policy" in m && m["egress_policy"].Bool? then "egress_policy" !in r else Agree(m, r, "egress_policy"))
    && (if StringAt(m, "kind") !in {"", "llm", "orchestrator"} then "kind" !in r else Agree(m, r, "kind"))
  }

  lemma {:induction false} AgentAttrs(v: Texts, m: Members)
    requires Sane(v) && "authn" !in m
    ensures SameBut(m, NodeAttrs(v, "agent", m), {"egress_policy", "kind", "x_migrated_from"})
    ensures AgentLoses(m, NodeAttrs(v, "agent", m))
  {
    PlainAgent(v, m);
    OnlyNoted(v, "agent", m);
    NotedToo(m, Plain(v, "agent", m), NodeAttrs(v, "agent", m), {"egress_policy", "kind"});
    NotedAgentLoses(m, Plain(v, "agent", m), NodeAttrs(v, "agent", m));
    assert {"egress_policy", "kind"} + {"x_migrated_from"} == {"egress_policy", "kind", "x_migrated_from"};
  }

  lemma {:induction false} NotedAgentLoses(m: Members, plain: Members, r: Members)
    requires AgentLoses(m, plain) && forall k | k != "x_migrated_from" :: Agree(plain, r, k)
    ensures AgentLoses(m, r)
  {
    assert Agree(plain, r, "egress_policy") && Agree(plain, r, "kind");
  }

  lemma {:induction false} PlainAgent(v: Texts, m: Members)
    ensures SameBut(m, Plain(v, "agent", m), {"egress_policy", "kind"}) && AgentLoses(m, Plain(v, "agent", m))
  {
    var r, rest := Plain(v, "agent", m), WithoutBool(m, "egress_policy");
    assert StrayKind(m) <==> StringAt(m, "kind") !in {"", "llm", "orchestrator"};
    if NeedsNarrowing("agent", m) {
      assert r == if StrayKind(m) then rest - {"kind"} else rest;
    } else {
      assert r == m && !HasBool(m, "egress_policy") && !StrayKind(m);
    }
    forall k | k !in {"egress_policy", "kind"} ensures Agree(m, r, k) {}
    SameButFrom(m, r, {"egress_policy", "kind"});
  }

  /** What the note of an agent says: the policy that went, then the kind. */
  lemma {:induction false} AgentNotes(m: Members)
    requires "egress_policy" in m && m["egress_policy"].Bool?
    ensures StringAt(m, "kind") in {"", "llm", "orchestrator"} ==>
              RewriteNotes("agent", m) == ["egress_policy=" + if m["egress_policy"].b then "true" else "false"]
    ensures StringAt(m, "kind") !in {"", "llm", "orchestrator"} ==>
              RewriteNotes("agent", m) == ["egress_policy=" + (if m["egress_policy"].b then "true" else "false"), "kind=" + StringAt(m, "kind")]
    ensures RewriteNotes("tool", m) == ["egress_policy=" + if m["egress_policy"].b then "true" else "false"]
  {
    assert "egress_policy" + "=" + "true" == "egress_policy=" + "true";
    assert "egress_policy" + "=" + "false" == "egress_policy=" + "false";
  }

  /** A tool loses only an egress policy that is a boolean; a node of no narrowed type keeps everything. */
  lemma {:induction false} ToolAttrs(v: Texts, t: string, m: Members)
    requires Sane(v) && "authn" !in m && t !in {"agent", "log_sink", "mcp_server"}
    ensures t != "tool" ==> NodeAttrs(v, t, m) == m
    ensures SameBut(m, NodeAttrs(v, t, m), {"egress_policy", "x_migrated_from"})
    ensures if t == "tool" && "egress_policy" in m && m["egress_policy"].Bool? then "egress_policy" !in NodeAttrs(v, t, m)
            else Agree(m, NodeAttrs(v, t, m), "egress_policy")
  {
    var plain := Plain(v, t, m);
    OnlyNoted(v, t, m);
    SameButFrom(m, plain, {"egress_policy"});
    NotedToo(m, plain, NodeAttrs(v, t, m), {"egress_policy"});
    assert Agree(plain, NodeAttrs(v, t, m), "egress_policy");
    assert {"egress_policy"} + {"x_migrated_from"} == {"egress_policy", "x_migrated_from"};
  }

  /** An exposure of internal is a private network, an unknown one goes, and every other value stays; the old value
      is noted. */
  lemma {:induction false} ServerAttrs(v: Texts, m: Members)
    requires Sane(v) && "authn" !in m
    ensures SameBut(m, NodeAttrs(v, "mcp_server", m), {"exposure", "x_migrated_from"})
    ensures TextAt(m, "exposure", "internal") ==> TextAt(NodeAttrs(v, "mcp_server", m), "exposure", "private_network")
    ensures TextAt(m, "exposure", "unknown") ==> "exposure" !in NodeAttrs(v, "mcp_server", m)
    ensures !TextAt(m, "exposure", "internal") && !TextAt(m, "exposure", "unknown") ==> NodeAttrs(v, "mcp_server", m) == m
  {
    var plain := Plain(v, "mcp_server", m);
    OnlyNoted(v, "mcp_server", m);
    SameButFrom(m, plain, {"exposure"});
    NotedToo(m, plain, NodeAttrs(v, "mcp_server", m), {"exposure"});
    assert Agree(plain, NodeAttrs(v, "mcp_server", m), "exposure");
    assert {"exposure"} + {"x_migrated_from"} == {"exposure", "x_migrated_from"};
  }

  lemma {:induction false} ServerNotes(m: Members)
    ensures TextAt(m, "exposure", "internal") ==> RewriteNotes("mcp_server", m) == ["exposure=internal"]
    ensures TextAt(m, "exposure", "unknown") ==> RewriteNotes("mcp_server", m) == ["exposure=unknown"]
  {
    assert "exposure=" + "internal" == "exposure=internal" && "exposure=" + "unknown" == "exposure=unknown";
  }

  /** The key a purpose moves to: the first of x_purpose, x_purpose_2, … that is free or holds the text already. */
  ghost predicate PurposeKey(m: Members, text: string, k: string) {
    exists j: nat :: j >= 1 && FirstKey(m, text, k, j)
  }

  predicate FirstKey(m: Members, text: string, k: string, j: nat) {
    k == ExtensionName(j) && (k in m ==> m[k] == Str(text))
    && forall i: nat | 1 <= i < j :: ExtensionName(i) in m && m[ExtensionName(i)] != Str(text)
  }

  function ExtensionName(j: nat): string { if j <= 1 then "x_purpose" else "x_purpose_" + Itoa(j) }

  lemma {:induction false} FreeFromIsFirst(taken: set<string>, base: string, i: nat) returns (j: nat)
    requires i >= 1 && forall k | 1 <= k < i :: Suffixed(base, k) in taken
    ensures i <= j && FreeFrom(taken, base, i) == Suffixed(base, j) && Suffixed(base, j) !in taken
    ensures forall k | 1 <= k < j :: Suffixed(base, k) in taken
    decreases |taken| + 1 - i
  {
    SuffixesFit(taken, base, i - 1);
    if Suffixed(base, i) !in taken {
      j := i;
    } else {
      SuffixesFit(taken, base, i);
      j := FreeFromIsFirst(taken, base, i + 1);
    }
  }

  lemma {:induction false} PurposeKeyIsFree(m: Members, text: string)
    ensures PurposeKey(m, text, FreeKey(m, text))
  {
    var taken := set k | k in m && m[k] != Str(text);
    var j := FreeFromIsFirst(taken, PURPOSE_EXTENSION, 1);
    FirstIsFree(m, text, taken, FreeKey(m, text), j);
  }

  lemma ExtensionIs(i: nat)
    ensures ExtensionName(i) == Suffixed(PURPOSE_EXTENSION, i)
  {
    assert "x_purpose" + "_" + Itoa(i) == "x_purpose_" + Itoa(i);
  }

  lemma {:induction false} FirstIsFree(m: Members, text: string, taken: set<string>, name: string, j: nat)
    requires forall k :: k in taken <==> k in m && m[k] != Str(text)
    requires 1 <= j && name == Suffixed(PURPOSE_EXTENSION, j) && name !in taken
    requires forall k | 1 <= k < j :: Suffixed(PURPOSE_EXTENSION, k) in taken
    ensures PurposeKey(m, text, name)
  {
    ExtensionIs(j);
    forall i: nat | 1 <= i < j ensures ExtensionName(i) in m && m[ExtensionName(i)] != Str(text) {
      ExtensionIs(i);
    }
    assert FirstKey(m, text, name, j);
  }

  /** The purpose of a log sink that folds to one of the three words becomes the word, a blank one goes, and one that
      is such a word or empty stays. */
  lemma {:induction false} SinkAttrs(v: Texts, m: Members, text: string)
    requires Sane(v) && "authn" !in m && TextAt(m, "purpose", text)
    ensures text in {"", "operational", "security", "evidence"} ==> NodeAttrs(v, "log_sink", m) == m
    ensures text !in {"", "operational", "security", "evidence"} && v.fold(text) in {"operational", "security", "evidence"} ==>
              TextAt(NodeAttrs(v, "log_sink", m), "purpose", v.fold(text))
              && SameBut(m, NodeAttrs(v, "log_sink", m), {"purpose", "x_migrated_from"})
    ensures text !in {"", "operational", "security", "evidence"} && v.fold(text) !in {"operational", "security", "evidence"} && v.blank(text) ==>
              "purpose" !in NodeAttrs(v, "log_sink", m) && SameBut(m, NodeAttrs(v, "log_sink", m), {"purpose", "x_migrated_from"})
  {
    var plain, r := Plain(v, "log_sink", m), NodeAttrs(v, "log_sink", m);
    OnlyNoted(v, "log_sink", m);
    SinkNotes(m, text);
    if v.fold(text) in {"operational", "security", "evidence"} || v.blank(text) {
      SameButFrom(m, plain, {"purpose"});
      NotedToo(m, plain, r, {"purpose"});
      assert Agree(plain, r, "purpose");
      assert {"purpose"} + {"x_migrated_from"} == {"purpose", "x_migrated_from"};
    }
  }

  /** Any other text moves to the free extension key. */
  lemma {:induction false} PurposeMoves(v: Texts, m: Members, text: string)
    requires Sane(v) && "authn" !in m && TextAt(m, "purpose", text) && text !in {"", "operational", "security", "evidence"}
    requires !v.blank(text) && v.fold(text) !in {"operational", "security", "evidence"}
    ensures var r, k := NodeAttrs(v, "log_sink", m), v.freeKey(m - {"purpose"}, text);
            "purpose" !in r && TextAt(r, k, text) && SameBut(m, r, {"purpose", k, "x_migrated_from"})
  {
    var plain, r, k := Plain(v, "log_sink", m), NodeAttrs(v, "log_sink", m), v.freeKey(m - {"purpose"}, text);
    OnlyNoted(v, "log_sink", m);
    assert SaneKey(v, m - {"purpose"}, text);
    SameButFrom(m, plain, {"purpose", k});
    NotedToo(m, plain, r, {"purpose", k});
    assert Agree(plain, r, k) && Agree(plain, r, "purpose");
    assert {"purpose", k} + {"x_migrated_from"} == {"purpose", k, "x_migrated_from"};
  }

  /** Folding drops the spaces at the ends and the case, a text is blank when nothing but spaces is in it, and the key
      is the first extension key that is free or holds the text already. */
  lemma {:induction false} PurposeTexts(m: Members, text: string)
    ensures MigrationTexts().fold(text) == Lower(Trim(text)) && (MigrationTexts().blank(text) <==> TextLaws.Blank(text))
    ensures PurposeKey(m, text, MigrationTexts().freeKey(m, text))
  {
    BlankLaws(text);
    PurposeKeyIsFree(m, text);
  }

  /** What went is noted. */
  lemma {:induction false} SinkNotes(m: Members, text: string)
    requires TextAt(m, "purpose", text)
    ensures RewriteNotes("log_sink", m) == if text in {"", "operational", "security", "evidence"} then [] else ["purpose=" + text]
  {}

  lemma {:induction false} BlankLaws(text: string)
    ensures TextLaws.Blank(text) <==> Trim(text) == ""
    ensures Lower("") == ""
  {
    TrimsToNothing(text);
  }

  /** An authn text becomes a list of one, an empty one goes, on a node of any type; a list stays. */
  lemma {:induction false} AuthnIsListed(m: Members, s: string)
    ensures TextAt(m, "authn", s) && s != "" ==> AuthnListed(m) == m["authn" := Arr([Str(s)])]
    ensures TextAt(m, "authn", "") ==> AuthnListed(m) == m - {"authn"}
    ensures "authn" !in m || !m["authn"].Str? ==> AuthnListed(m) == m
  {}

  // ---- protocols ---------------------------------------------------------------------------------

  /** The protocol texts: the enum's own values are valid and mean themselves; a spelling is noted unless it is the
      value but for case, spaces, hyphens and underscores. */
  lemma {:induction false} ProtocolTexts(text: string)
    ensures MigrationTexts().valid(text) <==>
            text in {"", "https", "grpc", "mqtt", "amqp", "opc_ua", "modbus", "ssh", "sql", "a2a", "mcp_stdio", "mcp_http", "other"}
    ensures MigrationTexts().canonical(text) == CanonicalProtocol(text)
    ensures MigrationTexts().blank(text) <==> TextLaws.Blank(text)
    ensures !TextLaws.Blank(text) ==> (MigrationTexts().noted(text) <==> Squash(CanonicalProtocol(text)) != Squash(text))
    ensures TextLaws.Blank(text) <==> CanonicalProtocol(text) == ""
  {
    BlankLaws(text);
    CanonicalIsValid(text);
  }

  /** An edge whose protocol is valid, or no text, stays as it is. */
  lemma {:induction false} ProtocolsStay(v: Texts, e: Members)
    requires "protocol" !in e || !e["protocol"].Str? || v.valid(e["protocol"].s)
    ensures EdgeRewrite(v, e) == e
  {}

  /** Any other protocol becomes its canonical spelling, or goes where that is empty; nothing else changes but the
      attributes. */
  lemma {:induction false} ProtocolsChange(v: Texts, e: Members, text: string)
    requires TextAt(e, "protocol", text) && !v.valid(text)
    ensures SameBut(e, EdgeRewrite(v, e), {"protocol", "attrs"})
    ensures if v.canonical(text) == "" then "protocol" !in EdgeRewrite(v, e)
            else TextAt(EdgeRewrite(v, e), "protocol", v.canonical(text))
  {
    SameButFrom(e, EdgeRewrite(v, e), {"protocol", "attrs"});
  }

  /** What was written is noted in the edge's attributes when a note is due and it was not blank. */
  lemma {:induction false} ProtocolIsNoted(v: Texts, e: Members, text: string)
    requires TextAt(e, "protocol", text) && !v.valid(text)
    ensures if v.blank(text) || !v.noted(text) then Agree(e, EdgeRewrite(v, e), "attrs")
            else HasAttrs(EdgeRewrite(v, e)) && AttrsOf(EdgeRewrite(v, e)) == Noted(v, AttrsOf(e), "protocol=" + text)
  {
    assert AttrsOf(ProtocolSet(v, e)) == AttrsOf(e);
  }

  /** The squashed spellings of each value. */
  function SquashedAs(value: string): set<string> {
    match value
    case "https" => {"https", "h2", "wss"}
    case "grpc" => {"grpc", "grpcs", "grpcweb"}
    case "mqtt" => {"mqtt", "mqtts"}
    case "amqp" => {"amqp", "amqps"}
    case "opc_ua" => {"opcua", "opc.tcp"}
    case "modbus" => {"modbus", "modbustcp", "modbus/tcp", "modbusrtu"}
    case "ssh" => {"ssh", "sftp", "scp"}
    case "sql" => {"sql", "tds", "postgres", "postgresql", "pg", "mysql", "jdbc", "odbc", "sql/tds"}
    case "a2a" => {"a2a"}
    case "mcp_stdio" => {"mcpstdio", "stdio"}
    case "mcp_http" => {"mcphttp", "mcp", "streamablehttp", "mcp/http"}
    case _ => {"other"}
  }

  /** A text means a value exactly when it spells it in any case, with any spaces, hyphens and underscores. */
  lemma {:induction false} ProtocolMeans(text: string, value: string)
    requires value in PROTOCOLS - {"other"}
    ensures CanonicalProtocol(text) == value <==> Trim(text) != "" && Squash(text) in SquashedAs(value)
  {
    KnownMeans(Squash(text), value);
  }

  lemma {:induction false} KnownMeans(s: string, value: string)
    requires value in PROTOCOLS
    ensures Known(s) == Some(value) <==> s in SquashedAs(value)
  {}

  /** Squashing a text leaves its trimmed characters in order, small, without spaces, hyphens and underscores. */
  lemma {:induction false} SquashKeeps(a: string, b: string)
    ensures WithoutSeparators(a + b) == WithoutSeparators(a) + WithoutSeparators(b)
  {
    if a == "" {
      assert a + b == b;
    } else {
      SquashKeeps(a[1..], b);
      SquashFirst(a);
      SquashFirst(a + b);
      assert (a + b)[1..] == a[1..] + b && (a + b)[0] == a[0];
      Grouped(WithoutSeparators([a[0]]), WithoutSeparators(a[1..]), WithoutSeparators(b));
    }
  }

  lemma SquashFirst(s: string)
    requires s != ""
    ensures WithoutSeparators(s) == WithoutSeparators([s[0]]) + WithoutSeparators(s[1..])
  {
    var one, head := [s[0]], if s[0] == ' ' || s[0] == '-' || s[0] == '_' then "" else [s[0]];
    assert one[0] == s[0] && one[1..] == "" && WithoutSeparators("") == "";
    assert WithoutSeparators(one) == head + "" == head;
    assert WithoutSeparators(s) == head + WithoutSeparators(s[1..]);
  }

  lemma Grouped(a: string, b: string, c: string)
    ensures a + (b + c) == a + b + c
  {}

  lemma SquashOne(text: string, c: char)
    requires Trim(text) == [c]
    ensures Squash(text) == if c in {' ', '-', '_'} then "" else if 'A' <= c <= 'Z' then [(c as int + 32) as char] else [c]
  {
    assert [c][1..] == "" && Lower("") == "" && WithoutSeparators("") == "";
    var small := Lower([c]);
    assert small[1..] == "";
  }

  // ---- hosts -------------------------------------------------------------------------------------

  /** The host an element names is another node of the document that is not a note. */
  predicate HostThere(items: seq<Json>, e: Members, host: string) {
    host != StringAt(e, "id") && host != ""
    && exists i :: 0 <= i < |items| && items[i].Obj? && StringAt(items[i].members, "id") == host && StringAt(items[i].members, "type") != "note"
  }

  lemma {:induction false} HostIsNode(items: seq<Json>, id: string)
    ensures id in Hosts(items) <==>
            id != "" && exists i :: 0 <= i < |items| && items[i].Obj? && StringAt(items[i].members, "id") == id
                                    && StringAt(items[i].members, "type") != "note"
  {
    if items != [] {
      var rest, last := items[..|items| - 1], items[|items| - 1];
      HostIsNode(rest, id);
      assert forall i | 0 <= i < |rest| :: rest[i] == items[i];
      if i :| 0 <= i < |items| && items[i].Obj? && StringAt(items[i].members, "id") == id && StringAt(items[i].members, "type") != "note" {
        assert i < |rest| ==> rest[i] == items[i];
      }
    }
  }

  /** An agent or an agent memory loses a host that is not there, with a note; every other element, and one whose
      host is there, stays as it is. */
  lemma {:induction false} HostIsDropped(items: seq<Json>, e: Members)
    ensures var r, attrs := HostRewrite(MigrationTexts(), Hosts(items), e), ObjectAt(e, "attrs");
            var host := StringAt(attrs, "hosted_on");
            if StringAt(e, "type") in {"agent", "agent_memory"} && host != "" && !HostThere(items, e, host)
            then r == e["attrs" := Obj(Noted(MigrationTexts(), attrs - {"hosted_on"}, "hosted_on=" + host))]
            else r == e
  {
    HostIsNode(items, StringAt(ObjectAt(e, "attrs"), "hosted_on"));
  }

  // ---- identities --------------------------------------------------------------------------------

  /** The agents that get an identity: with one of the six values and no identity_id of their own. */
  lemma {:induction false} EligibleIff(e: Members)
    ensures Eligible(e) <==>
            StringAt(e, "type") == "agent"
            && StringAt(ObjectAt(e, "attrs"), "identity") in {"agent_id", "managed_identity", "shared", "user_impersonation", "none", "unknown"}
            && ("identity_id" !in ObjectAt(e, "attrs") || !ObjectAt(e, "attrs")["identity_id"].Str?
                || ObjectAt(e, "attrs")["identity_id"].s == "")
  {}

  /** The entity made for each value: its name, its kind but for an unknown value, the credential type of a managed
      identity, and the value it was made for. */
  lemma {:induction false} IdentityTable(id: string, value: string)
    requires value in {"agent_id", "managed_identity", "shared", "user_impersonation", "none", "unknown"}
    ensures var e := Identity(id, value);
            e.Keys == {"id", "name", "attrs"} + (if value == "unknown" then {} else {"kind"})
                      + (if value == "managed_identity" then {"credential_type"} else {})
            && e["id"] == Str(id) && e["attrs"] == Obj(map["x_migrated_from" := Str("agent.identity=" + value)])
            && (value == "managed_identity" ==> e["credential_type"] == Str("managed_identity"))
            && match value
               case "agent_id" => e["name"] == Str("Agent identity (agent_id)") && e["kind"] == Str("agent_identity")
               case "managed_identity" => e["name"] == Str("Managed identity") && e["kind"] == Str("workload_identity")
               case "shared" => e["name"] == Str("Shared identity") && e["kind"] == Str("shared")
               case "user_impersonation" => e["name"] == Str("User impersonation") && e["kind"] == Str("user_account")
               case "none" => e["name"] == Str("No identity") && e["kind"] == Str("none")
               case _ => e["name"] == Str("Unknown identity")
  {}

  /** An id is in use when an element of any collection, or a finding, has it. */
  lemma {:induction false} UsedIds(d: Doc, id: string)
    ensures id in Used(d) <==>
            exists coll, i :: coll in {"nodes", "edges", "groups", "identities", "findings"} && 0 <= i < |Items(d, coll)| && HasId(Items(d, coll)[i], id)
  {
    IdsHave(Items(d, "nodes"), id);
    IdsHave(Items(d, "edges"), id);
    IdsHave(Items(d, "groups"), id);
    IdsHave(Items(d, "identities"), id);
    IdsHave(Items(d, "findings"), id);
  }

  predicate HasId(j: Json, id: string) { j.Obj? && "id" in j.members && j.members["id"] == Str(id) }

  lemma {:induction false} IdsHave(items: seq<Json>, id: string)
    ensures id in Ids(items) <==> exists i :: 0 <= i < |items| && HasId(items[i], id)
  {
    if items != [] {
      var rest, last := items[..|items| - 1], items[|items| - 1];
      IdsHave(rest, id);
      assert forall i | 0 <= i < |rest| :: rest[i] == items[i];
      if i :| 0 <= i < |items| && HasId(items[i], id) {
        assert i < |rest| ==> rest[i] == items[i];
      }
    }
  }

  /** The identity of a value is named ident_ and the value, with the first number that makes it new. */
  lemma {:induction false} IdentityNames(used: set<string>, s: Minted, value: string, e: Members)
    requires Eligible(e) && StringAt(ObjectAt(e, "attrs"), "identity") == value && value !in s.created && s.used == used
    ensures var r := MintOne(MigrationMint(), s, Obj(e));
            value in r.created && r.created == s.created[value := r.created[value]] && r.used == used + {r.created[value]}
            && r.made == s.made + [(value, r.created[value])]
            && exists j: nat :: NewName(used, "ident_" + value, r.created[value], j)
  {
    var base := "ident_" + value;
    var j := FreeFromIsFirst(used, base, 1);
    forall i: nat ensures (if i <= 1 then base else base + "_" + Itoa(i)) == Suffixed(base, i) {}
    assert NewName(used, base, FreeId(used, base), j);
  }

  /** The name is the base, or the base and the number j, and is new where every smaller number is taken. */
  predicate NewName(used: set<string>, base: string, name: string, j: nat) {
    name == (if j <= 1 then base else base + "_" + Itoa(j)) && name !in used
    && forall i: nat | 1 <= i < j :: (if i <= 1 then base else base + "_" + Itoa(i)) in used
  }

  // ---- versions ----------------------------------------------------------------------------------

  lemma {:induction false} NumberOfDigits(n: nat)
    requires n < 10000
    ensures NumberPart(Itoa(n)) && Number(Itoa(n)) == n
  {
    if n < 10 {
      assert Itoa(n) == [Text.Digit(n)] && [Text.Digit(n)][..0] == "";
      assert Number("") == 0;
    } else {
      NumberOfDigits(n / 10);
      var s := Itoa(n);
      assert s == Digits(n / 10) + [Text.Digit(n % 10)] && s[..|s| - 1] == Itoa(n / 10);
      ShortNumber(n);
      DigitsSpell(n);
    }
  }

  lemma {:induction false} ShortNumber(n: nat)
    requires n < 10000
    ensures |Digits(n)| <= 4
  {
    assert n < 10 ==> |Digits(n)| == 1;
    assert 10 <= n < 100 ==> |Digits(n / 10)| == 1;
    assert 100 <= n < 1000 ==> |Digits(n / 10 / 10)| == 1 && |Digits(n / 10)| == 2;
    assert n >= 1000 ==> |Digits(n / 10 / 10 / 10)| == 1 && |Digits(n / 10 / 10)| == 2 && |Digits(n / 10)| == 3;
  }

  lemma {:induction false} VersionParts(a: nat, b: nat)
    requires a < 10000 && b < 10000
    ensures ValidVersion(Itoa(a) + "." + Itoa(b)) && Upgrades.Parts(Itoa(a) + "." + Itoa(b)) == (a, b)
  {
    var parts := [Itoa(a), Itoa(b)];
    NumberOfDigits(a);
    NumberOfDigits(b);
    assert parts[1..] == [Itoa(b)];
    assert Join(parts, '.') == Itoa(a) + "." + Itoa(b);
    forall i | 0 <= i < 2 ensures '.' !in parts[i] {
      ItoaSpells(a);
      ItoaSpells(b);
    }
    SplitJoin(parts, '.');
  }

  /** Versions compare by number, major before minor. */
  lemma {:induction false} VersionOrder(a: nat, b: nat, c: nat, d: nat)
    requires a < 10000 && b < 10000 && c < 10000 && d < 10000
    ensures After(Itoa(a) + "." + Itoa(b), Itoa(c) + "." + Itoa(d)) <==> a > c || (a == c && b > d)
  {
    VersionParts(a, b);
    VersionParts(c, d);
  }

  /** The version of a document is its own where that is two numbers with a point between, and 0.9 where it has none;
      anything else is no version. */
  lemma {:induction false} VersionReads(d: Doc, a: nat, b: nat)
    requires a < 10000 && b < 10000
    ensures "schema_version" !in d.members ==> VersionOf(d) == Ok("0.9")
    ensures TextAt(d.members, "schema_version", Itoa(a) + "." + Itoa(b)) ==> VersionOf(d) == Ok(Itoa(a) + "." + Itoa(b))
    ensures "schema_version" in d.members && (!d.members["schema_version"].Str? || '.' !in d.members["schema_version"].s) ==>
              VersionOf(d) == Err(InvalidVersion)
  {
    VersionParts(a, b);
    if "schema_version" in d.members && d.members["schema_version"].Str? && '.' !in d.members["schema_version"].s {
      SplitWord(d.members["schema_version"].s, '.');
    }
  }

  // ---- what an upgrade does ----------------------------------------------------------------------

  /** An upgrade from an older version leaves nothing for Normalize to rewrite, and a document of the current version
      as it is. */
  lemma {:induction false} UpgradeNormalizes(v: Texts, mint: Minter, d: Doc)
    requires Sane(v) && Upgraded(v, mint, d).Ok?
    ensures VersionOf(d) == Ok("1.3") ==> Upgraded(v, mint, d).value == d
    ensures VersionOf(d) != Ok("1.3") ==> Normalized(v, Upgraded(v, mint, d).value) == Upgraded(v, mint, d).value
  {
    if VersionOf(d) != Ok("1.3") {
      var i := UpgradedFrom(v, mint, d);
      LastStepNormalizes(v, mint, i, d);
    }
  }

  lemma {:induction false} LastStepNormalizes(v: Texts, mint: Minter, i: nat, d: Doc)
    requires Sane(v) && i < 4
    ensures Normalized(v, StepsFrom(v, mint, i, d)) == StepsFrom(v, mint, i, d)
    decreases 4 - i
  {
    if i < 3 {
      LastStepNormalizes(v, mint, i + 1, StepOf(v, mint, i, d));
    } else {
      NormalizeSettles(v, d);
      VersionCommutes(v, Normalized(v, d), "1.3");
      assert StepsFrom(v, mint, 3, d) == StepsFrom(v, mint, 4, V12to13(v, d));
    }
  }

  lemma {:induction false} VersionCommutes(v: Texts, d: Doc, version: string)
    ensures Normalized(v, AtVersion(d, version)) == AtVersion(Normalized(v, d), version)
  {
    PassCommutes(EdgePass(v), d, version);
    PassCommutes(NodePass(v), Applied(EdgePass(v), d), version);
  }

  lemma {:induction false} PassCommutes(p: Pass, d: Doc, version: string)
    requires p.coll != "schema_version"
    ensures Applied(p, AtVersion(d, version)) == AtVersion(Applied(p, d), version)
  {
    VersionItems(d, version, p.coll);
    if p.coll in d.members && d.members[p.coll].Arr? {
      var items := Arr(ItemsAfter(p, Items(d, p.coll)));
      assert d.members[FIELD := Str(version)][p.coll := items] == d.members[p.coll := items][FIELD := Str(version)];
    }
  }

  /** From 1.1 on identities are left as they are; before, they are migrated from the normalised document. */
  lemma {:induction false} IdentitiesStay(v: Texts, mint: Minter, d: Doc)
    requires VersionOf(d) in {Ok("1.1"), Ok("1.2"), Ok("1.3")} && Upgraded(v, mint, d).Ok?
    ensures Items(Upgraded(v, mint, d).value, "identities") == Items(d, "identities")
  {
    UpgradeIsSteps(v, mint, d);
    StartsLate(VersionOf(d).value);
    LaterStepsKeep(v, mint, StartOf(VersionOf(d).value).value, d);
  }

  lemma StartsLate(version: string)
    requires version in {"1.1", "1.2", "1.3"}
    ensures StartOf(version).Some? && StartOf(version).value >= 2
  {}

  lemma UpgradeIsSteps(v: Texts, mint: Minter, d: Doc)
    requires Upgraded(v, mint, d).Ok?
    ensures VersionOf(d).Ok? && StartOf(VersionOf(d).value).Some?
    ensures Upgraded(v, mint, d).value == StepsFrom(v, mint, StartOf(VersionOf(d).value).value, d)
  {}

  lemma {:induction false} FirstStepMigrates(v: Texts, mint: Minter, d: Doc)
    requires VersionOf(d) in {Ok("0.9"), Ok("1.0")} && Upgraded(v, mint, d).Ok?
    ensures Items(Upgraded(v, mint, d).value, "identities") == Items(IdentitiesMigrated(mint, Normalized(v, AtVersion(d, "1.0"))), "identities")
  {
    var i := StartOf(VersionOf(d).value).value;
    if i == 1 {
      SameVersion(d);
    }
    FromTen(v, mint, i, d);
  }

  lemma {:induction false} FromTen(v: Texts, mint: Minter, i: nat, d: Doc)
    requires i < 2 && (i == 1 ==> AtVersion(d, "1.0") == d)
    ensures Items(StepsFrom(v, mint, i, d), "identities") == Items(IdentitiesMigrated(mint, Normalized(v, AtVersion(d, "1.0"))), "identities")
  {
    var ten := AtVersion(d, "1.0");
    TwoSteps(v, mint, i, d);
    LaterStepsKeep(v, mint, 2, V10to11(v, mint, ten));
    VersionItems(IdentitiesMigrated(mint, Normalized(v, ten)), "1.1", "identities");
  }

  lemma SameVersion(d: Doc)
    requires VersionOf(d) == Ok("1.0")
    ensures AtVersion(d, "1.0") == d
  {}

  lemma {:induction false} TwoSteps(v: Texts, mint: Minter, i: nat, d: Doc)
    requires i < 2
    ensures StepsFrom(v, mint, i, d) == StepsFrom(v, mint, 2, V10to11(v, mint, if i == 0 then V09to10(d) else d))
  {
    if i == 0 {
      assert StepsFrom(v, mint, 0, d) == StepsFrom(v, mint, 1, V09to10(d));
    }
    var ten := if i == 0 then V09to10(d) else d;
    assert StepsFrom(v, mint, 1, ten) == StepsFrom(v, mint, 2, V10to11(v, mint, ten));
  }

  lemma {:induction false} LaterStepsKeep(v: Texts, mint: Minter, i: nat, d: Doc)
    requires 2 <= i <= 4
    ensures Items(StepsFrom(v, mint, i, d), "identities") == Items(d, "identities")
    decreases 4 - i
  {
    if i < 4 {
      var next := StepOf(v, mint, i, d);
      LaterStepsKeep(v, mint, i + 1, next);
      NormalKeeps(v, d, "identities");
      if i == 2 {
        OtherItems(HostPass(v, Hosts(Items(Normalized(v, d), "nodes"))), Normalized(v, d), "identities");
        VersionItems(HostsDropped(v, Normalized(v, d)), "1.2", "identities");
      } else {
        VersionItems(Normalized(v, d), "1.3", "identities");
      }
    }
  }

  lemma {:induction false} NormalKeeps(v: Texts, d: Doc, coll: string)
    requires coll !in {"nodes", "edges"}
    ensures Items(Normalized(v, d), coll) == Items(d, coll)
  {
    OtherItems(EdgePass(v), d, coll);
    OtherItems(NodePass(v), Applied(EdgePass(v), d), coll);
  }

  // ---- the sidecar of a document -----------------------------------------------------------------

  /** A key of a document resolves when it leads to a root attribute, to the last element of its id, or to a value
      inside it, members of the layout and those the server owns excluded. */
  lemma {:induction false} DocKeyResolves(d: Doc, coll: string, id: string, rest: Pointer)
    requires coll in {"nodes", "edges", "groups", "identities"}
    ensures KeyResolves(d, [coll, id]) <==> exists i :: 0 <= i < |Items(d, coll)| && HasId(Items(d, coll)[i], id)
    ensures rest != [] && ElementOf(Items(d, coll), id).Some? ==>
              (KeyResolves(d, [coll, id] + rest) <==>
               rest[0] !in {"position", "positions", "size", "icon", "source", "id"}
               && rest[0] in ElementOf(Items(d, coll), id).value
               && Holds(ElementOf(Items(d, coll), id).value[rest[0]], rest[1..]))
    ensures rest != [] ==>
              (KeyResolves(d, ["attrs"] + rest) <==>
               rest[0] in ObjectAt(d.members, "attrs") && Holds(ObjectAt(d.members, "attrs")[rest[0]], rest[1..]))
  {
    ElementIsThere(Items(d, coll), id);
    assert ([coll, id] + rest)[2..] == rest;
    assert (["attrs"] + rest)[1..] == rest;
  }

  lemma {:induction false} ElementIsThere(items: seq<Json>, id: string)
    ensures ElementOf(items, id).Some? <==> exists i :: 0 <= i < |items| && HasId(items[i], id)
  {
    if items != [] {
      var rest := items[..|items| - 1];
      ElementIsThere(rest, id);
      assert forall i | 0 <= i < |rest| :: rest[i] == items[i];
    }
  }

  lemma {:induction false} ElementIsLast(items: seq<Json>, id: string) returns (i: nat)
    requires ElementOf(items, id).Some?
    ensures i < |items| && HasId(items[i], id) && items[i] == Obj(ElementOf(items, id).value)
    ensures forall j | i < j < |items| :: !HasId(items[j], id)
  {
    if HasId(items[|items| - 1], id) {
      i := |items| - 1;
    } else {
      i := ElementIsLast(items[..|items| - 1], id);
    }
  }

  /** Dropping takes away the entries at or below the prefixes and no others; a sidecar that is emptied goes. */
  lemma {:induction false} DroppedEntries(prov: Entries, drops: set<Pointer>)
    ensures var r := Dropped(Some(prov), drops);
            (r.None? <==> prov != map[] && forall k | k in prov :: exists p :: p in drops && p <= k)
            && (r.Some? ==> forall k :: k in r.value <==> k in prov && forall p | p in drops :: !(p <= k))
            && (r.Some? ==> forall k | k in r.value :: r.value[k] == prov[k])
    ensures Dropped(None, drops) == None
  {
    var kept := map k | k in prov && !UnderAny(drops, k) :: prov[k];
    if kept != map[] {
      var k :| k in kept;
      assert k in prov && !UnderAny(drops, k);
    }
    forall k | k in prov ensures k in kept <==> !UnderAny(drops, k) {}
  }

  // ---- version numbers ---------------------------------------------------------------------------

  /** A part of a version is the decimals of a number below ten thousand, and nothing else is. */
  lemma {:induction false} NumberPartIff(s: string)
    ensures NumberPart(s) <==> exists n: nat :: n < 10000 && s == Itoa(n)
  {
    if NumberPart(s) {
      PartSpells(s);
      BelowTenThousand(s);
      assert s == Itoa(Number(s));
    }
    if n: nat :| n < 10000 && s == Itoa(n) {
      NumberOfDigits(n);
    }
  }

  lemma {:induction false} PartSpells(s: string)
    requires NumberPart(s)
    ensures Number(s) >= 0 && Itoa(Number(s)) == s && (s[0] != '0' ==> Number(s) > 0)
  {
    var rest, d := s[..|s| - 1], s[|s| - 1] as int - '0' as int;
    assert s == rest + [Text.Digit(d)];
    if rest == "" {
      assert Number("") == 0;
    } else {
      ShorterPart(s);
      PartSpells(rest);
      DigitAppended(Number(rest), d);
    }
  }

  lemma ShorterPart(s: string)
    requires NumberPart(s) && |s| > 1
    ensures NumberPart(s[..|s| - 1]) && s[0] != '0' && s[..|s| - 1][0] == s[0]
    ensures Number(s) == 10 * Number(s[..|s| - 1]) + (s[|s| - 1] as int - '0' as int)
  {}

  lemma DigitAppended(n: nat, d: nat)
    requires n > 0 && d < 10
    ensures Itoa(n * 10 + d) == Itoa(n) + [Text.Digit(d)]
  {
    assert (n * 10 + d) / 10 == n && (n * 10 + d) % 10 == d;
  }

  lemma {:induction false} BelowTenThousand(s: string)
    requires NumberPart(s)
    ensures Number(s) < 10000
  {
    NumberBound(s);
  }

  lemma {:induction false} NumberBound(s: string)
    requires forall i | 0 <= i < |s| :: '0' <= s[i] <= '9'
    ensures 0 <= Number(s)
    ensures |s| <= 1 ==> Number(s) < 10
    ensures |s| <= 2 ==> Number(s) < 100
    ensures |s| <= 3 ==> Number(s) < 1000
    ensures |s| <= 4 ==> Number(s) < 10000
  {
    if s != "" {
      NumberBound(s[..|s| - 1]);
    }
  }

  // ---- the counts --------------------------------------------------------------------------------

  /** A node counts one rewrite for each of the five attributes the rewrite changes. */
  lemma {:induction false} NodeCountIsChanges(v: Texts, t: string, m: Members)
    requires Sane(v)
    ensures NodeRewrites(t, m) == |set k | k in {"purpose", "egress_policy", "kind", "exposure", "authn"} && !Agree(m, NodeAttrs(v, t, m), k)|
  {
    AttrChangesAre(v, t, m);
    NarrowedCount(t, m);
    FiveKeys(m, NodeAttrs(v, t, m), NarrowedKeys(t, m), HasText(m, "authn"));
  }

  lemma {:induction false} FiveKeys(m: Members, r: Members, narrowed: set<string>, listed: bool)
    requires narrowed <= {"purpose", "egress_policy", "kind", "exposure"} && "authn" !in narrowed
    requires forall k | k in {"purpose", "egress_policy", "kind", "exposure"} :: !Agree(m, r, k) <==> k in narrowed
    requires !Agree(m, r, "authn") <==> listed
    ensures |set k | k in {"purpose", "egress_policy", "kind", "exposure", "authn"} && !Agree(m, r, k)| == |narrowed| + if listed then 1 else 0
  {
    var changed := set k | k in {"purpose", "egress_policy", "kind", "exposure", "authn"} && !Agree(m, r, k);
    assert changed == narrowed + if listed then {"authn"} else {};
  }

  /** The narrowed attributes a rewrite changes. */
  function NarrowedKeys(t: string, m: Members): set<string> {
    if t == "log_sink" then
      (if HasText(m, "purpose") && m["purpose"].s !in {"", "operational", "security", "evidence"} then {"purpose"} else {})
    else if t == "agent" then
      (if HasBool(m, "egress_policy") then {"egress_policy"} else {})
      + (if HasText(m, "kind") && m["kind"].s !in {"", "llm", "orchestrator"} then {"kind"} else {})
    else if t == "tool" then (if HasBool(m, "egress_policy") then {"egress_policy"} else {})
    else if t == "mcp_server" then (if HasText(m, "exposure") && m["exposure"].s in {"internal", "unknown"} then {"exposure"} else {})
    else {}
  }

  lemma {:induction false} NarrowedCount(t: string, m: Members)
    ensures |RewriteNotes(t, m)| == |NarrowedKeys(t, m)| && "authn" !in NarrowedKeys(t, m)
    ensures NarrowedKeys(t, m) <= {"purpose", "egress_policy", "kind", "exposure"}
  {
    if t == "agent" {
      var a := if HasBool(m, "egress_policy") then {"egress_policy"} else {};
      var b := if HasText(m, "kind") && m["kind"].s !in {"", "llm", "orchestrator"} then {"kind"} else {};
      assert a * b == {};
      assert |BoolNotes(m, "egress_policy")| == |a|;
    }
  }

  lemma {:induction false} AttrChangesAre(v: Texts, t: string, m: Members)
    requires Sane(v)
    ensures forall k | k in {"purpose", "egress_policy", "kind", "exposure"} :: !Agree(m, NodeAttrs(v, t, m), k) <==> k in NarrowedKeys(t, m)
    ensures !Agree(m, NodeAttrs(v, t, m), "authn") <==> HasText(m, "authn")
  {
    var plain, narrowed := Plain(v, t, m), Narrowed(v, t, m);
    PlainKeepsOthers(v, t, m);
    NotedAllIs(v, plain, RewriteNotes(t, m));
    AgreeOutside(plain, narrowed);
    PlainChangesAre(v, t, m);
    assert Agree(plain, narrowed, "authn");
    forall k | k in {"purpose", "egress_policy", "kind", "exposure"}
      ensures !Agree(m, NodeAttrs(v, t, m), k) <==> k in NarrowedKeys(t, m)
    {
      assert k != MIGRATED_FROM && k != "authn";
      assert Agree(plain, narrowed, k);
      OtherThanAuthn(narrowed, k);
    }
  }

  lemma OtherThanAuthn(m: Members, k: string)
    requires k != "authn"
    ensures Agree(m, AuthnListed(m), k)
  {}

  lemma {:induction false} PlainChangesAre(v: Texts, t: string, m: Members)
    requires Sane(v)
    ensures forall k | k in {"purpose", "egress_policy", "kind", "exposure"} :: !Agree(m, Plain(v, t, m), k) <==> k in NarrowedKeys(t, m)
  {
    if t == "log_sink" && HasText(m, "purpose") {
      assert SaneKey(v, m - {"purpose"}, m["purpose"].s);
    } else if t == "agent" {
      PlainAgent(v, m);
    }
  }

  /** An edge counts when its protocol changes. */
  lemma {:induction false} EdgeCountIsChanges(v: Texts, e: Members)
    requires Sane(v)
    ensures EdgeCount(v, Obj(e)) == if Agree(e, EdgeRewrite(v, e), "protocol") then 0 else 1
  {
    if StrayProtocol(v, e) {
      assert SaneProtocol(v, e["protocol"].s);
    }
  }

  /** The dangling hosts counted are the elements that lose one. */
  lemma {:induction false} DanglingIsChanged(v: Texts, hosts: set<string>, items: seq<Json>, changed: set<int>)
    requires forall i :: i in changed <==> 0 <= i < |items| && items[i].Obj? && HostRewrite(v, hosts, items[i].members) != items[i].members
    ensures Dangling(hosts, items) == |changed|
  {
    if items != [] {
      var rest, n := items[..|items| - 1], |items| - 1;
      DanglingIsChanged(v, hosts, rest, changed - {n});
      LosesHost(v, hosts, items[n]);
    } else {
      forall i ensures i !in changed {}
      assert changed == {};
    }
  }

  lemma {:induction false} LosesHost(v: Texts, hosts: set<string>, j: Json)
    ensures DanglingAt(hosts, j) == if j.Obj? && HostRewrite(v, hosts, j.members) != j.members then 1 else 0
  {
    if j.Obj? && !HostHolds(hosts, j.members) {
      HostPassKeeps(v, hosts, j.members);
      var r := HostRewrite(v, hosts, j.members);
      assert HostHolds(hosts, r);
    }
  }
}
