/** The text functions of the migrations (model/migrate/v11.go, v11_attrs.go, deprecate.go): protocol
    spellings, notes, and names that are free. */
module Spellings {
  import opened Options
  import opened Json
  import opened Text
  import opened Normalizing
  import opened Migrating

  // ---- protocols ---------------------------------------------------------------------------------

  const PROTOCOLS: set<string> :=
    {"https", "grpc", "mqtt", "amqp", "opc_ua", "modbus", "ssh", "sql", "a2a", "mcp_stdio", "mcp_http", "other"}

  function WithoutSeparators(s: string): string {
    if s == "" then ""
    else (if s[0] == ' ' || s[0] == '-' || s[0] == '_' then "" else [s[0]]) + WithoutSeparators(s[1..])
  }

  /** The spelling without case, spaces, hyphens and underscores. */
  function Squash(s: string): string { WithoutSeparators(Lower(Trim(s))) }

  /** The enum value of a squashed spelling. */
  function Known(s: string): Option<string> {
    if s in {"https", "h2", "wss"} then Some("https")
    else if s in {"grpc", "grpcs", "grpcweb"} then Some("grpc")
    else if s in {"mqtt", "mqtts"} then Some("mqtt")
    else if s in {"amqp", "amqps"} then Some("amqp")
    else if s in {"opcua", "opc.tcp"} then Some("opc_ua")
    else if s in {"modbus", "modbustcp", "modbus/tcp", "modbusrtu"} then Some("modbus")
    else if s in {"ssh", "sftp", "scp"} then Some("ssh")
    else if s in {"sql", "tds", "postgres", "postgresql", "pg", "mysql", "jdbc", "odbc", "sql/tds"} then Some("sql")
    else if s in {"a2a"} then Some("a2a")
    else if s in {"mcpstdio", "stdio"} then Some("mcp_stdio")
    else if s in {"mcphttp", "mcp", "streamablehttp", "mcp/http"} then Some("mcp_http")
    else if s in {"other"} then Some("other")
    else None
  }

  predicate ValidProtocol(p: string) { p == "" || p in PROTOCOLS }

  function CanonicalProtocol(text: string): string {
    if Trim(text) == "" then ""
    else match Known(Squash(text)) case Some(value) => value case None => "other"
  }

  predicate ProtocolIsNoted(text: string) {
    if Trim(text) == "" then text != "" else Squash(CanonicalProtocol(text)) != Squash(text)
  }

  /** A canonical protocol is in the enum or empty, whatever the text. */
  lemma CanonicalIsValid(text: string)
    ensures ValidProtocol(CanonicalProtocol(text))
    ensures CanonicalProtocol(text) == "" <==> Trim(text) == ""
  {}

  // ---- notes -------------------------------------------------------------------------------------

  const NOTE_MAX := 2000

  /** strings.Split at "; ". */
  function SplitNotes(s: string): (r: seq<string>)
    ensures r != []
  {
    if s == "" then [""]
    else if |s| >= 2 && s[0] == ';' && s[1] == ' ' then [""] + SplitNotes(s[2..])
    else
      var rest := SplitNotes(s[1..]);
      [[s[0]] + rest[0]] + rest[1..]
  }

  function JoinNotes(parts: seq<string>): string {
    if parts == [] then ""
    else if |parts| == 1 then parts[0]
    else parts[0] + "; " + JoinNotes(parts[1..])
  }

  lemma {:induction false} JoinSplitNotes(s: string)
    ensures JoinNotes(SplitNotes(s)) == s
  {
    if s != "" {
      if |s| >= 2 && s[0] == ';' && s[1] == ' ' {
        JoinSplitNotes(s[2..]);
        assert SplitNotes(s)[1..] == SplitNotes(s[2..]);
        assert s == "; " + s[2..];
      } else {
        JoinSplitNotes(s[1..]);
        var rest := SplitNotes(s[1..]);
        assert SplitNotes(s)[1..] == rest[1..];
        assert s == [s[0]] + s[1..];
      }
    }
  }

  lemma {:induction false} JoinMore(parts: seq<string>, entry: string)
    requires parts != []
    ensures JoinNotes(parts + [entry]) == JoinNotes(parts) + "; " + entry
  {
    if |parts| == 1 {
      assert (parts + [entry])[1..] == [entry];
    } else {
      assert (parts + [entry])[1..] == parts[1..] + [entry];
      JoinMore(parts[1..], entry);
    }
  }

  /** noteAttrs: the note text with one more entry, or nothing when the entry is there already or the text
      would outgrow its bound. */
  function NoteText(prev: string, entry: string): Option<string> {
    var entries := if prev == "" then [] else SplitNotes(prev);
    var joined := JoinNotes(entries + [entry]);
    if entry in entries || |joined| > NOTE_MAX then None else Some(joined)
  }

  /** A note keeps the text it extends, and a first note is the entry, when it fits. */
  lemma {:induction false} NoteExtends(prev: string, entry: string)
    ensures NoteText(prev, entry).Some? ==> NoteText(prev, entry).value == if prev == "" then entry else prev + "; " + entry
    ensures NoteText("", entry).Some? <==> |entry| <= NOTE_MAX
  {
    assert [] + [entry] == [entry];
    if prev != "" {
      JoinSplitNotes(prev);
      JoinMore(SplitNotes(prev), entry);
    }
  }

  // ---- free names --------------------------------------------------------------------------------

  /** base, base_2, base_3 … */
  function Suffixed(base: string, i: nat): string {
    if i <= 1 then base else base + "_" + Itoa(i)
  }

  lemma {:induction false} SuffixedApart(base: string, i: nat, j: nat)
    requires 1 <= i < j
    ensures Suffixed(base, i) != Suffixed(base, j)
  {
    if Suffixed(base, i) == Suffixed(base, j) {
      assert |Suffixed(base, j)| > |base|;
      assert Suffixed(base, i)[|base| + 1..] == Itoa(i);
      assert Suffixed(base, j)[|base| + 1..] == Itoa(j);
      ItoaInjective(i, j);
    }
  }

  /** A finite set holds as many of the names at most as it has elements. */
  lemma {:induction false} SuffixesFit(s: set<string>, base: string, n: nat)
    requires forall i | 1 <= i <= n :: Suffixed(base, i) in s
    ensures n <= |s|
  {
    if n > 0 {
      var last := Suffixed(base, n);
      forall i | 1 <= i <= n - 1 ensures Suffixed(base, i) in s - {last} {
        SuffixedApart(base, i, n);
      }
      SuffixesFit(s - {last}, base, n - 1);
    }
  }

  /** The first name from the i-th on that is not taken: the search ends because the set is finite. */
  function FreeFrom(taken: set<string>, base: string, i: nat): (name: string)
    requires i >= 1 && forall j | 1 <= j < i :: Suffixed(base, j) in taken
    ensures name !in taken
    ensures exists j :: i <= j && name == Suffixed(base, j)
    decreases |taken| + 1 - i
  {
    SuffixesFit(taken, base, i - 1);
    if Suffixed(base, i) !in taken then Suffixed(base, i)
    else
      SuffixesFit(taken, base, i);
      FreeFrom(taken, base, i + 1)
  }

  /** freeID. */
  function FreeId(used: set<string>, base: string): string { FreeFrom(used, base, 1) }

  const PURPOSE_EXTENSION := "x_purpose"

  /** freeKey: a key that is unset or already holds the text. */
  function FreeKey(m: Members, text: string): string {
    FreeFrom((set k | k in m && m[k] != Str(text)), PURPOSE_EXTENSION, 1)
  }

  method FindFreeId(used: set<string>, base: string) returns (id: string)
    ensures id == FreeId(used, base) && id !in used
  {
    if base !in used {
      return base;
    }
    var i := 2;
    while true
      invariant i >= 2 && forall j | 1 <= j < i :: Suffixed(base, j) in used
      invariant FreeId(used, base) == FreeFrom(used, base, i)
      decreases |used| + 1 - i
    {
      SuffixesFit(used, base, i - 1);
      var c := base + "_" + Itoa(i);
      if c !in used {
        return c;
      }
      SuffixesFit(used, base, i);
      i := i + 1;
    }
  }

  method FindFreeKey(m: Members, text: string) returns (key: string)
    ensures key == FreeKey(m, text)
  {
    ghost var taken := set k | k in m && m[k] != Str(text);
    var i := 1;
    while true
      invariant i >= 1 && forall j | 1 <= j < i :: Suffixed(PURPOSE_EXTENSION, j) in taken
      invariant FreeKey(m, text) == FreeFrom(taken, PURPOSE_EXTENSION, i)
      decreases |taken| + 1 - i
    {
      SuffixesFit(taken, PURPOSE_EXTENSION, i - 1);
      key := PURPOSE_EXTENSION;
      if i > 1 {
        key := PURPOSE_EXTENSION + "_" + Itoa(i);
      }
      if key !in m || m[key] == Str(text) {
        return;
      }
      SuffixesFit(taken, PURPOSE_EXTENSION, i);
      i := i + 1;
    }
  }

  // ---- the texts of the migrations ---------------------------------------------------------------

  predicate Blank(text: string) { Trim(text) == "" }

  function Folded(text: string): string { Lower(Trim(text)) }

  function MigrationTexts(): Texts {
    Texts(ValidProtocol, CanonicalProtocol, ProtocolIsNoted, Blank, Folded, NoteText, FreeKey)
  }

  function MigrationMint(): Minter { FreeId }

  lemma {:induction false} ExtensionIsNew(j: nat)
    requires 1 <= j
    ensures Suffixed(PURPOSE_EXTENSION, j) !in REWRITTEN
  {
    var k := Suffixed(PURPOSE_EXTENSION, j);
    assert k[0] == 'x' && k[2] == 'p';
    assert MIGRATED_FROM[2] == 'm';
  }

  lemma {:induction false} ProtocolsAreSane(text: string)
    ensures SaneProtocol(MigrationTexts(), text)
  {
    CanonicalIsValid(text);
  }

  lemma {:induction false} KeysAreSane(m: Members, text: string)
    ensures SaneKey(MigrationTexts(), m, text)
  {
    var j :| 1 <= j && FreeKey(m, text) == Suffixed(PURPOSE_EXTENSION, j);
    ExtensionIsNew(j);
  }

  /** The texts are what the rewrites rely on. */
  lemma {:induction false} TextsAreSane()
    ensures Sane(MigrationTexts()) && MintsFree(MigrationMint())
  {
    forall text ensures SaneProtocol(MigrationTexts(), text) {
      ProtocolsAreSane(text);
    }
    forall m, text ensures SaneKey(MigrationTexts(), m, text) {
      KeysAreSane(m, text);
    }
    forall used, base ensures Free(MigrationMint(), used, base) {}
  }

  /** A first note is written exactly when the entry is within the bound. */
  lemma {:induction false} FirstNoteFits(entry: string)
    ensures MigrationTexts().note("", entry).Some? <==> |entry| <= NOTE_MAX
  {
    NoteExtends("", entry);
  }
}
