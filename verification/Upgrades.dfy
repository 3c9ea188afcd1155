/** Upgrading a document to the current schema version (model/migrate/migrate.go): which versions have a
    path, what the steps reach, and what they keep. */
module Upgrades {
  import opened Options
  import opened Json
  import opened Text
  import opened Pointers
  import opened Passes
  import opened Normalizing
  import opened Migrating

  const FIELD := "schema_version"
  const CURRENT := "1.3"
  const UNVERSIONED := "0.9"

  datatype Error = InvalidVersion | Newer | NoPath

  // ---- versions ----------------------------------------------------------------------------------

  predicate Digit(c: char) { '0' <= c <= '9' }

  /** "0", or one to four digits of which the first is not zero. */
  predicate NumberPart(s: string) {
    1 <= |s| <= 4 && (forall i | 0 <= i < |s| :: Digit(s[i])) && (s[0] == '0' ==> |s| == 1)
  }

  predicate ValidVersion(s: string) {
    var parts := Split(s, '.');
    |parts| == 2 && NumberPart(parts[0]) && NumberPart(parts[1])
  }

  function Number(s: string): int {
    if s == "" then 0 else Number(s[..|s| - 1]) * 10 + (s[|s| - 1] as int - '0' as int)
  }

  /** Major and minor; a malformed version sorts as 0.0. */
  function Parts(s: string): (int, int) {
    if ValidVersion(s) then (Number(Split(s, '.')[0]), Number(Split(s, '.')[1])) else (0, 0)
  }

  /** compare > 0. */
  predicate After(a: string, b: string) {
    Parts(a).0 > Parts(b).0 || (Parts(a).0 == Parts(b).0 && Parts(a).1 > Parts(b).1)
  }

  function VersionOf(d: Doc): Result<string, Error> {
    if FIELD !in d.members then Ok(UNVERSIONED)
    else if d.members[FIELD].Str? && ValidVersion(d.members[FIELD].s) then Ok(d.members[FIELD].s)
    else Err(InvalidVersion)
  }

  // ---- the steps ---------------------------------------------------------------------------------

  function AtVersion(d: Doc, version: string): Doc { d.(members := d.members[FIELD := Str(version)]) }

  function V09to10(d: Doc): Doc { AtVersion(d, "1.0") }

  function V10to11(v: Texts, mint: Minter, d: Doc): Doc { AtVersion(IdentitiesMigrated(mint, Normalized(v, d)), "1.1") }

  function V11to12(v: Texts, d: Doc): Doc { AtVersion(HostsDropped(v, Normalized(v, d)), "1.2") }

  function V12to13(v: Texts, d: Doc): Doc { AtVersion(Normalized(v, d), "1.3") }

  /** The version each step starts from, in order; the last step ends at the current version. */
  const FROM: seq<string> := ["0.9", "1.0", "1.1", "1.2"]

  function To(i: nat): string
    requires i < 4
  {
    if i == 3 then CURRENT else FROM[i + 1]
  }

  function StepOf(v: Texts, mint: Minter, i: nat, d: Doc): Doc
    requires i < 4
  {
    if i == 0 then V09to10(d) else if i == 1 then V10to11(v, mint, d) else if i == 2 then V11to12(v, d) else V12to13(v, d)
  }

  /** The first step from a version: 4 at the current one, nothing when no step starts there. */
  function StartOf(version: string): (r: Option<nat>)
    ensures r.Some? ==> r.value <= 4
  {
    if version == CURRENT then Some(4)
    else if version == "0.9" then Some(0)
    else if version == "1.0" then Some(1)
    else if version == "1.1" then Some(2)
    else if version == "1.2" then Some(3)
    else None
  }

  function PathFrom(version: string): (r: Result<nat, Error>)
    ensures r.Ok? ==> r.value <= 4
  {
    match StartOf(version)
    case Some(i) => Ok(i)
    case None => Err(if After(version, CURRENT) then Newer else NoPath)
  }

  function StepsFrom(v: Texts, mint: Minter, i: nat, d: Doc): Doc
    requires i <= 4
    decreases 4 - i
  {
    if i == 4 then d else StepsFrom(v, mint, i + 1, StepOf(v, mint, i, d))
  }

  /** UpgradeDoc. */
  function Upgraded(v: Texts, mint: Minter, d: Doc): Result<Doc, Error> {
    match VersionOf(d)
    case Err(e) => Err(e)
    case Ok(version) =>
      match PathFrom(version)
      case Err(e) => Err(e)
      case Ok(i) => Ok(StepsFrom(v, mint, i, d))
  }

  // ---- an upgraded document ----------------------------------------------------------------------

  lemma {:induction false} CurrentVersion(version: string)
    requires version in {"0.9", "1.0", "1.1", "1.2", "1.3"}
    ensures ValidVersion(version)
  {
    var major, minor := version[..1], version[2..];
    assert version == major + ['.'] + minor;
    assert Join([major, minor], '.') == version by {
      assert [major, minor][1..] == [minor];
    }
    SplitJoin([major, minor], '.');
  }

  lemma {:induction false} StepReaches(v: Texts, mint: Minter, i: nat, d: Doc)
    requires i < 4
    ensures VersionOf(StepOf(v, mint, i, d)) == Ok(To(i))
  {
    CurrentVersion(To(i));
  }

  lemma {:induction false} StepsReach(v: Texts, mint: Minter, i: nat, d: Doc)
    requires i < 4
    ensures VersionOf(StepsFrom(v, mint, i, d)) == Ok(CURRENT)
    decreases 4 - i
  {
    StepReaches(v, mint, i, d);
    if i < 3 {
      StepsReach(v, mint, i + 1, StepOf(v, mint, i, d));
    }
  }

  /** An upgrade ends at the current version, and upgrading its result changes nothing. */
  lemma {:induction false} UpgradeReachesCurrent(v: Texts, mint: Minter, d: Doc)
    requires Upgraded(v, mint, d).Ok?
    ensures VersionOf(Upgraded(v, mint, d).value) == Ok(CURRENT)
    ensures Upgraded(v, mint, Upgraded(v, mint, d).value) == Ok(Upgraded(v, mint, d).value)
  {
    var i := StartOf(VersionOf(d).value).value;
    if i < 4 {
      StepsReach(v, mint, i, d);
    }
  }

  /** Which documents upgrade: those of the current version or one a step starts from. The others are
      refused, as newer exactly when their version is after the current one. */
  lemma {:induction false} UpgradeAccepts(v: Texts, mint: Minter, d: Doc)
    ensures Upgraded(v, mint, d).Ok? <==> VersionOf(d).Ok? && VersionOf(d).value in {"0.9", "1.0", "1.1", "1.2", "1.3"}
    ensures Upgraded(v, mint, d) == Err(InvalidVersion) <==> VersionOf(d).Err?
    ensures VersionOf(d).Ok? && Upgraded(v, mint, d).Err? ==>
              (Upgraded(v, mint, d) == Err(Newer) <==> Parts(VersionOf(d).value).0 > 1
                                                       || (Parts(VersionOf(d).value).0 == 1 && Parts(VersionOf(d).value).1 > 3))
  {
    CurrentParts();
  }

  lemma {:induction false} CurrentParts()
    ensures Parts(CURRENT) == (1, 3)
  {
    CurrentVersion(CURRENT);
    assert "1.3" == "1" + ['.'] + "3";
    SplitJoin(["1", "3"], '.');
    assert Join(["1", "3"], '.') == "1.3" by {
      assert ["1", "3"][1..] == ["3"];
    }
    assert Split(CURRENT, '.') == ["1", "3"];
    assert Number("1") == 1 && Number("3") == 3 by {
      assert "1"[..0] == "" && "3"[..0] == "";
    }
  }

  // ---- hosts -------------------------------------------------------------------------------------

  lemma {:induction false} VersionItems(d: Doc, version: string, coll: string)
    requires coll != FIELD
    ensures Items(AtVersion(d, version), coll) == Items(d, coll)
  {}

  /** From 1.2 every non-empty host of an agent or an agent memory names another node that is not a note:
      a document below 1.2 gains it, one at 1.2 keeps it. */
  lemma {:induction false} UpgradeResolvesHosts(v: Texts, mint: Minter, d: Doc)
    requires Sane(v) && Upgraded(v, mint, d).Ok? && VersionOf(d) != Ok(CURRENT)
    requires VersionOf(d) == Ok("1.2") ==> HostsResolve(Items(d, "nodes"))
    ensures HostsResolve(Items(Upgraded(v, mint, d).value, "nodes"))
  {
    var i := UpgradedFrom(v, mint, d);
    HostsFrom(v, mint, i, d);
  }

  lemma {:induction false} UpgradedFrom(v: Texts, mint: Minter, d: Doc) returns (i: nat)
    requires Upgraded(v, mint, d).Ok? && VersionOf(d) != Ok(CURRENT)
    ensures i < 4 && Upgraded(v, mint, d).value == StepsFrom(v, mint, i, d) && (i == 3 ==> VersionOf(d) == Ok("1.2"))
  {
    i := StartOf(VersionOf(d).value).value;
  }

  lemma {:induction false} HostsFrom(v: Texts, mint: Minter, i: nat, d: Doc)
    requires Sane(v) && i < 4 && (i == 3 ==> HostsResolve(Items(d, "nodes")))
    ensures HostsResolve(Items(StepsFrom(v, mint, i, d), "nodes"))
  {
    if i == 3 {
      LastStepKeepsHosts(v, mint, d);
    } else {
      StepsResolveHosts(v, mint, i, d);
    }
  }

  lemma {:induction false} LastStepKeepsHosts(v: Texts, mint: Minter, d: Doc)
    requires Sane(v) && HostsResolve(Items(d, "nodes"))
    ensures HostsResolve(Items(StepsFrom(v, mint, 3, d), "nodes"))
  {
    NormalizeKeepsHosts(v, d);
    VersionItems(Normalized(v, d), "1.3", "nodes");
    assert StepsFrom(v, mint, 3, d) == StepsFrom(v, mint, 4, V12to13(v, d));
  }

  lemma {:induction false} StepsResolveHosts(v: Texts, mint: Minter, i: nat, d: Doc)
    requires Sane(v) && i < 3
    ensures HostsResolve(Items(StepsFrom(v, mint, i, d), "nodes"))
    decreases 3 - i
  {
    var next := StepOf(v, mint, i, d);
    if i < 2 {
      StepsResolveHosts(v, mint, i + 1, next);
    } else {
      var normal := Normalized(v, d);
      HostsDroppedResolve(v, normal);
      VersionItems(HostsDropped(v, normal), "1.2", "nodes");
      LastStepKeepsHosts(v, mint, next);
    }
  }

  // ---- the sidecar and the version ---------------------------------------------------------------

  lemma {:induction false} VersionKeepsKey(d: Doc, version: string, k: Pointer)
    ensures KeyResolves(AtVersion(d, version), k) <==> KeyResolves(d, k)
  {
    if |k| >= 2 && k[0] != FIELD {
      VersionItems(d, version, k[0]);
    }
    assert ObjectAt(AtVersion(d, version).members, "attrs") == ObjectAt(d.members, "attrs");
  }

  /** Without the condition it fails: an agent of a stray kind whose x_migrated_from holds an object, and a
      sidecar key inside that object, which the note replaces. */
  lemma {:induction false} NoteHidesKey(v: Texts, d: Doc)
    requires Sane(v) && v.note("", "kind=gateway").Some? && d == NotedOver()
    ensures SoundDoc(d) && !SoundDoc(Normalized(v, d))
  {
    var path := ["attrs", MIGRATED_FROM, "by"];
    var k := ["nodes", "a"] + path;
    assert k == ["nodes", "a", "attrs", MIGRATED_FROM, "by"];
    assert Keys(d) == {k};
    NotedKey(v, d, path, k);
    NormalizeKeepsSound(v, d);
    assert !NoneLost(NodePass(v), d);
  }

  lemma {:induction false} NotedKey(v: Texts, d: Doc, path: Pointer, k: Pointer)
    requires v.note("", "kind=gateway").Some? && d == NotedOver()
    requires path == ["attrs", MIGRATED_FROM, "by"] && k == ["nodes", "a"] + path
    ensures KeyResolves(d, k) && Loses(NodePass(v), d, k)
  {
    assert k[2..] == path;
    NotedElement(d, path);
    NotedEntry(v, NotedAgent());
    BelowOne(["attrs", MIGRATED_FROM], path);
    assert ["attrs", MIGRATED_FROM] == path[..2];
  }

  lemma {:induction false} NotedElement(d: Doc, path: Pointer)
    requires d == NotedOver() && path == ["attrs", MIGRATED_FROM, "by"]
    ensures ElementOf(Items(d, "nodes"), "a") == Some(NotedAgent()) && Holds(Obj(NotedAgent()), path)
  {
    var items := Items(d, "nodes");
    assert items == [Obj(NotedAgent())] && items[|items| - 1] == Obj(NotedAgent());
    assert path[1..] == [MIGRATED_FROM, "by"] && path[2..] == ["by"];
    HoldsIn(map["by" := Null], ["by"]);
    assert [MIGRATED_FROM, "by"][1..] == ["by"];
    HoldsIn(AttrsOf(NotedAgent()), path[1..]);
    HoldsIn(NotedAgent(), path);
  }

  lemma {:induction false} HoldsIn(m: Members, path: Pointer)
    requires path != [] && path[0] in m && Holds(m[path[0]], path[1..])
    ensures Holds(Obj(m), path)
  {}

  lemma {:induction false} NotedEntry(v: Texts, e: Members)
    requires v.note("", "kind=gateway").Some? && e == NotedAgent()
    ensures NodeLost(v, e) == {["attrs", MIGRATED_FROM]}
  {
    var notes := RewriteNotes("agent", AttrsOf(e));
    assert StrayKind(AttrsOf(e)) && BoolNotes(AttrsOf(e), "egress_policy") == [];
    assert "kind=" + "gateway" == "kind=gateway";
    assert notes == ["kind=gateway"];
    assert v.note("", notes[0]).Some?;
  }

  function NotedAgent(): Members {
    map["id" := Str("a"), "type" := Str("agent"),
        "attrs" := Obj(map["kind" := Str("gateway"), MIGRATED_FROM := Obj(map["by" := Null])])]
  }

  function NotedOver(): Doc {
    Doc(map["nodes" := Arr([Obj(NotedAgent())])], Some(map[["nodes", "a", "attrs", MIGRATED_FROM, "by"] := Null]))
  }
}
