/** Patches on a model document (model/patch.go): paths that address elements by id, and the RFC 6902
    operations add, remove and replace they become. */
module Patches {
  import opened Options
  import opened Text
  import opened Json
  import opened Pointers

  datatype Kind = Add | Remove | Replace

  datatype Op = Op(kind: Kind, path: string, value: Json)

  datatype Error = EmptyPatch | System | Protected | BadPath | BadCollection | NoElement | NotApplicable

  const ID_COLLECTIONS: set<string> := {"nodes", "edges", "groups", "findings", "identities"}

  // ---- RFC 6902, sections 4.1 to 4.3 -------------------------------------------------------------

  /** The operation on a member or an item of v. */
  function PatchLeaf(v: Json, token: string, kind: Kind, value: Json): Option<Json> {
    match v
    case Obj(m) =>
      if kind.Add? then Some(Obj(m[token := value]))
      else if token !in m then None
      else if kind.Remove? then Some(Obj(m - {token}))
      else Some(Obj(m[token := value]))
    case Arr(items) =>
      if kind.Add? && token == "-" then Some(Arr(items + [value]))
      else if kind.Add? then
        var at := IndexOf(token, |items| + 1);
        if at.None? then None else Some(Arr(items[..at.value] + [value] + items[at.value..]))
      else
        var at := IndexOf(token, |items|);
        if at.None? then None
        else if kind.Remove? then Some(Arr(items[..at.value] + items[at.value + 1..]))
        else Some(Arr(items[at.value := value]))
    case _ => None
  }

  /** The operation at a path inside v. */
  function PatchAt(v: Json, path: Pointer, kind: Kind, value: Json): Option<Json>
    decreases |path|
  {
    if path == [] then None
    else if |path| == 1 then PatchLeaf(v, path[0], kind, value)
    else match v
      case Obj(m) =>
        if path[0] !in m then None
        else
          var inner := PatchAt(m[path[0]], path[1..], kind, value);
          if inner.None? then None else Some(Obj(m[path[0] := inner.value]))
      case Arr(items) =>
        var at := IndexOf(path[0], |items|);
        if at.None? then None
        else
          var inner := PatchAt(items[at.value], path[1..], kind, value);
          if inner.None? then None else Some(Arr(items[at.value := inner.value]))
      case _ => None
  }

  // ---- paths -------------------------------------------------------------------------------------

  predicate UnderRoot(p: string, root: string) { p == root || root + "/" <= p }

  predicate IsSystemPath(p: string) {
    UnderRoot(p, "/findings") || UnderRoot(p, "/evidence") || UnderRoot(p, "/provenance")
  }

  predicate IsProtected(p: string) {
    p in {"/id", "/tenant_id", "/version", "/schema_version", "/created_at", "/updated_at", ""}
  }

  /** What strconv.Atoi reads: an optional sign and digits, in the range of 64 bits. */
  predicate IsNumber(s: string) {
    var digits := if s != "" && (s[0] == '+' || s[0] == '-') then s[1..] else s;
    digits != "" && (forall i | 0 <= i < |digits| :: '0' <= digits[i] <= '9')
    && Value(digits) < 0x8000_0000_0000_0000 + if s[0] == '-' then 1 else 0
  }

  function Value(digits: string): int {
    if digits == "" then 0 else Value(digits[..|digits| - 1]) * 10 + (digits[|digits| - 1] as int - '0' as int)
  }

  /** The id of an element: "" when it has none, nothing when it cannot be read. */
  function IdOf(j: Json): Option<string> {
    if !j.Obj? then None
    else if "id" !in j.members || j.members["id"].Null? then Some("")
    else if j.members["id"].Str? then Some(j.members["id"].s)
    else None
  }

  function Elements(root: Members, coll: string): seq<Json> {
    if coll in root && root[coll].Arr? then root[coll].items else []
  }

  /** The first element with the id. */
  function FirstWithId(items: seq<Json>, id: string): (r: Option<nat>)
    ensures r.Some? ==> r.value < |items| && IdOf(items[r.value]) == Some(id)
    ensures r.Some? ==> forall i | 0 <= i < r.value :: IdOf(items[i]) != Some(id)
    ensures r.None? ==> forall i | 0 <= i < |items| :: IdOf(items[i]) != Some(id)
  {
    if items == [] then None
    else
      var before := FirstWithId(items[..|items| - 1], id);
      if before.Some? then before
      else if IdOf(items[|items| - 1]) == Some(id) then Some(|items| - 1)
      else None
  }

  predicate Readable(root: Members, coll: string) {
    coll !in root || root[coll].Null? || (root[coll].Arr? && forall i | 0 <= i < |root[coll].items| :: IdOf(root[coll].items[i]).Some?)
  }

  /** The index a key stands for: none for "-" and for an index that is no id; ids win over indexes. */
  function Located(root: Members, coll: string, key: string): Result<Option<nat>, Error> {
    var at := FirstWithId(Elements(root, coll), key);
    if key == "-" then Ok(None)
    else if IsNumber(key) && at.None? then Ok(None)
    else if !Readable(root, coll) then Err(BadCollection)
    else if at.None? then Err(NoElement)
    else Ok(at)
  }

  /** The path with its id segment replaced by the index of its element. */
  function ResolveSegments(root: Members, path: string, segs: seq<string>): Result<string, Error> {
    if |segs| < 2 || segs[0] !in ID_COLLECTIONS then Ok(path)
    else
      var at := Located(root, segs[0], Unescape(segs[1]));
      if at.Err? then Err(at.error)
      else if at.value.None? then Ok(path)
      else Ok("/" + Join(segs[1 := Itoa(at.value.value)], '/'))
  }

  /** resolvePath. */
  function ResolvePath(root: Members, path: string): Result<string, Error> {
    if path == "" || path[0] != '/' then Err(BadPath) else ResolveSegments(root, path, Split(path[1..], '/'))
  }

  /** One operation, its id resolved against the current document. */
  function ApplyOp(root: Members, op: Op, allowSystem: bool): Result<Members, Error> {
    if !allowSystem && IsSystemPath(op.path) then Err(System)
    else if IsProtected(op.path) then Err(Protected)
    else
      var path := ResolvePath(root, op.path);
      if path.Err? then Err(path.error)
      else
        var tokens := SplitPointer(path.value);
        if tokens.None? then Err(BadPath)
        else
          var out := PatchAt(Obj(root), tokens.value, op.kind, op.value);
          if out.Some? && out.value.Obj? then Ok(out.value.members) else Err(NotApplicable)
  }

  type Applier = (Members, Op) -> Result<Members, Error>

  function ApplierOf(allowSystem: bool): Applier { (root, op) => ApplyOp(root, op, allowSystem) }

  /** The operations one by one: each sees the document the earlier ones left. */
  function RunOps(apply: Applier, root: Members, ops: seq<Op>): Result<Members, Error> {
    if ops == [] then Ok(root)
    else
      var before := RunOps(apply, root, ops[..|ops| - 1]);
      if before.Err? then before else apply(before.value, ops[|ops| - 1])
  }

  /** The loop of Apply; an empty patch is refused. */
  method Apply(root: Members, ops: seq<Op>, allowSystem: bool) returns (r: Result<Members, Error>)
    ensures r == if ops == [] then Err(EmptyPatch) else RunOps(ApplierOf(allowSystem), root, ops)
  {
    if |ops| == 0 {
      return Err(EmptyPatch);
    }
    var doc := root;
    for i := 0 to |ops|
      invariant RunOps(ApplierOf(allowSystem), root, ops[..i]) == Ok(doc)
    {
      assert ops[..i + 1][..i] == ops[..i];
      var next := ApplyOp(doc, ops[i], allowSystem);
      if next.Err? {
        StaysFailed(ApplierOf(allowSystem), root, ops, i + 1);
        return next;
      }
      doc := next.value;
    }
    assert ops[..|ops|] == ops;
    return Ok(doc);
  }

  lemma {:induction false} StaysFailed(apply: Applier, root: Members, ops: seq<Op>, n: nat)
    requires n <= |ops| && RunOps(apply, root, ops[..n]).Err?
    ensures RunOps(apply, root, ops) == RunOps(apply, root, ops[..n])
    decreases |ops|
  {
    if n == |ops| {
      assert ops[..n] == ops;
    } else {
      var rest := ops[..|ops| - 1];
      assert rest[..n] == ops[..n];
      StaysFailed(apply, root, rest, n);
    }
  }

  // ---- what a path addresses ---------------------------------------------------------------------

  /** The id reads the same unescaped, holds no slash and is not the end-of-array token. */
  predicate PlainId(id: string) { '/' !in id && Unescape(id) == id && id != "-" }

  predicate IdChar(c: char) {
    'A' <= c <= 'Z' || 'a' <= c <= 'z' || '0' <= c <= '9' || c == '_' || c == '.' || c == ':' || c == '-'
  }

  /** What the schema accepts as an id. */
  predicate SchemaId(id: string) {
    1 <= |id| <= 64 && (forall i | 0 <= i < |id| :: IdChar(id[i])) && id[0] !in {'.', ':', '-'}
  }

  /** Every id the schema accepts is plain, so the diff's paths name every element of a valid model. */
  lemma {:induction false} ValidIsPlain(id: string)
    requires SchemaId(id)
    ensures PlainId(id)
  {
    assert '~' !in id;
    PairUntouched(id, '~', '1', '/');
    PairUntouched(id, '~', '0', '~');
  }

  lemma {:induction false} PairUntouched(s: string, a: char, b: char, put: char)
    requires a !in s
    ensures ReplacePair(s, a, b, put) == s
  {
    if |s| >= 2 {
      PairUntouched(s[1..], a, b, put);
      assert s == [s[0]] + s[1..];
    }
  }

  lemma {:induction false} UnescapePlain(s: string)
    requires '~' !in s
    ensures Unescape(s) == s
  {
    PairUntouched(s, '~', '1', '/');
    PairUntouched(s, '~', '0', '~');
  }

  lemma {:induction false} JoinTwo(a: string, b: string)
    ensures Join([a, b], '/') == a + "/" + b
  {
    assert [a, b][1..] == [b];
  }

  lemma {:induction false} SplitTwo(a: string, b: string)
    requires '/' !in a && '/' !in b
    ensures Split(a + "/" + b, '/') == [a, b]
  {
    JoinTwo(a, b);
    SplitJoin([a, b], '/');
  }

  /** The path of an element, or of an item, in a collection. */
  function ElementPath(coll: string, segment: string): string { "/" + coll + "/" + segment }

  predicate Collection(coll: string) { coll == "nodes" || coll == "edges" || coll == "groups" }

  lemma {:induction false} CollectionPlain(coll: string)
    requires Collection(coll)
    ensures '/' !in coll && '~' !in coll && coll in ID_COLLECTIONS && coll != ""
  {}

  lemma {:induction false} PathTokens(coll: string, segment: string)
    requires Collection(coll) && '/' !in segment
    ensures Unescape(segment) == segment ==> SplitPointer(ElementPath(coll, segment)) == Some([coll, segment])
    ensures Split(ElementPath(coll, segment)[1..], '/') == [coll, segment]
  {
    CollectionPlain(coll);
    var path := ElementPath(coll, segment);
    assert path[1..] == coll + "/" + segment;
    SplitTwo(coll, segment);
    UnescapePlain(coll);
    assert Unescape(segment) == segment ==> SplitPointer(path).value == [coll, segment];
  }

  lemma {:induction false} ElementPathAllowed(coll: string, segment: string)
    requires Collection(coll)
    ensures !IsSystemPath(ElementPath(coll, segment)) && !IsProtected(ElementPath(coll, segment))
  {
    var p := ElementPath(coll, segment);
    assert p[1] == coll[0] && p[2] == coll[1] && p[3] == coll[2];
    assert !UnderRoot(p, "/findings") && !UnderRoot(p, "/evidence") && !UnderRoot(p, "/provenance");
    assert |p| >= 7;
  }

  lemma {:induction false} IndexPlain(i: nat, n: nat)
    ensures '/' !in Itoa(i) && '~' !in Itoa(i)
    ensures i < n ==> IndexOf(Itoa(i), n) == Some(i)
  {
    var token := Itoa(i);
    var at := IndexOf(token, n);
    assert at.None? && i < n ==> Itoa(i) != token;
    if at.Some? {
      ItoaInjective(at.value, i);
    }
  }

  lemma {:induction false} LocatedElement(root: Members, coll: string, id: string, i: nat)
    requires PlainId(id) && Readable(root, coll) && FirstWithId(Elements(root, coll), id) == Some(i)
    ensures Located(root, coll, id) == Ok(Some(i))
  {}

  lemma {:induction false} ItemPath(coll: string, id: string, index: string)
    ensures "/" + Join([coll, id][1 := index], '/') == ElementPath(coll, index)
  {
    JoinTwo(coll, index);
    assert [coll, id][1 := index] == [coll, index];
    assert "/" + (coll + "/" + index) == ElementPath(coll, index);
  }

  lemma {:induction false} ResolveElementSegments(root: Members, path: string, coll: string, id: string, i: nat)
    requires Collection(coll) && PlainId(id) && Readable(root, coll) && FirstWithId(Elements(root, coll), id) == Some(i)
    ensures ResolveSegments(root, path, [coll, id]) == Ok(ElementPath(coll, Itoa(i)))
  {
    CollectionPlain(coll);
    LocatedElement(root, coll, id, i);
    ItemPath(coll, id, Itoa(i));
  }

  lemma {:induction false} ResolveElement(root: Members, coll: string, id: string, i: nat)
    requires Collection(coll) && PlainId(id) && Readable(root, coll) && FirstWithId(Elements(root, coll), id) == Some(i)
    ensures ResolvePath(root, ElementPath(coll, id)) == Ok(ElementPath(coll, Itoa(i)))
  {
    PathTokens(coll, id);
    ResolveElementSegments(root, ElementPath(coll, id), coll, id, i);
  }

  // ---- exactly which ids a path can name ---------------------------------------------------------

  lemma {:induction false} SamePathSameSegment(coll: string, x: string, y: string)
    ensures ElementPath(coll, x) == ElementPath(coll, y) <==> x == y
  {
    var n := |coll| + 2;
    assert ElementPath(coll, x)[n..] == x && ElementPath(coll, y)[n..] == y;
  }

  lemma {:induction false} SplitSlash(id: string)
    requires '/' in id
    ensures |Split(id, '/')| >= 2
  {
    JoinSplit(id, '/');
  }

  lemma {:induction false} SlashSegments(coll: string, id: string)
    requires Collection(coll) && '/' in id
    ensures var segs := Split(ElementPath(coll, id)[1..], '/'); |segs| >= 3 && segs[0] == coll && FreeOf(segs, '/')
  {
    CollectionPlain(coll);
    assert ElementPath(coll, id)[1..] == coll + ['/'] + id;
    SplitFirst(coll, id, '/');
    SplitSlash(id);
    JoinSplit(ElementPath(coll, id)[1..], '/');
  }

  /** The path of an id with a slash has a segment too many. */
  lemma {:induction false} SlashMisses(root: Members, coll: string, id: string, i: nat)
    requires Collection(coll) && '/' in id
    ensures ResolvePath(root, ElementPath(coll, id)) != Ok(ElementPath(coll, Itoa(i)))
  {
    var path := ElementPath(coll, id);
    var segs := Split(path[1..], '/');
    SlashSegments(coll, id);
    SamePathSameSegment(coll, id, Itoa(i));
    IndexPlain(i, 0);
    LongSegments(root, path, coll, segs, i);
  }

  lemma {:induction false} LongSegments(root: Members, path: string, coll: string, segs: seq<string>, i: nat)
    requires Collection(coll) && |segs| >= 3 && segs[0] == coll && FreeOf(segs, '/') && path != ElementPath(coll, Itoa(i))
    ensures ResolveSegments(root, path, segs) != Ok(ElementPath(coll, Itoa(i)))
  {
    CollectionPlain(coll);
    var at := Located(root, coll, Unescape(segs[1]));
    if at.Ok? && at.value.Some? {
      LongerPath(coll, segs, at.value.value, i);
    }
  }

  lemma {:induction false} LongerPath(coll: string, segs: seq<string>, j: nat, i: nat)
    requires Collection(coll) && |segs| >= 3 && FreeOf(segs, '/')
    ensures "/" + Join(segs[1 := Itoa(j)], '/') != ElementPath(coll, Itoa(i))
  {
    var longer, shorter := segs[1 := Itoa(j)], [coll, Itoa(i)];
    IndexPlain(i, 0);
    IndexPlain(j, 0);
    CollectionPlain(coll);
    JoinTwo(coll, Itoa(i));
    JoinInjective(longer, shorter, '/');
    assert ElementPath(coll, Itoa(i)) == "/" + Join(shorter, '/');
    assert ("/" + Join(longer, '/'))[1..] == Join(longer, '/');
    assert ("/" + Join(shorter, '/'))[1..] == Join(shorter, '/');
  }

  /** The path the diff writes names the element exactly when its id is plain; any other id is refused or
      names something else. */
  lemma {:induction false} NamesIffPlain(root: Members, coll: string, id: string, i: nat)
    requires Collection(coll) && Readable(root, coll) && FirstWithId(Elements(root, coll), id) == Some(i)
    ensures ResolvePath(root, ElementPath(coll, id)) == Ok(ElementPath(coll, Itoa(i))) <==> PlainId(id)
  {
    if PlainId(id) {
      ResolveElement(root, coll, id, i);
    } else if '/' in id {
      SlashMisses(root, coll, id, i);
    } else {
      PathTokens(coll, id);
      CollectionPlain(coll);
      SamePathSameSegment(coll, id, Itoa(i));
      IndexPlain(i, 0);
      UnescapePlain(Itoa(i));
      var at := Located(root, coll, Unescape(id));
      if at.Ok? && at.value.Some? {
        var j := at.value.value;
        ItemPath(coll, id, Itoa(j));
        SamePathSameSegment(coll, Itoa(j), Itoa(i));
        assert Itoa(j) == Itoa(i) ==> j == i by {
          if Itoa(j) == Itoa(i) {
            ItoaInjective(j, i);
          }
        }
      }
    }
  }

  /** An allowed operation whose path resolves. */
  lemma {:induction false} ApplyResolved(root: Members, op: Op, path: string, tokens: Pointer, after: Members)
    requires !IsSystemPath(op.path) && !IsProtected(op.path)
    requires ResolvePath(root, op.path) == Ok(path) && SplitPointer(path) == Some(tokens)
    requires PatchAt(Obj(root), tokens, op.kind, op.value) == Some(Obj(after))
    ensures ApplyOp(root, op, false) == Ok(after)
  {}

  /** An operation on an element changes its collection alone. */
  lemma {:induction false} ApplyElement(root: Members, coll: string, id: string, i: nat, kind: Kind, value: Json)
    requires Collection(coll) && PlainId(id) && Readable(root, coll) && FirstWithId(Elements(root, coll), id) == Some(i)
    requires coll in root && root[coll].Arr? && kind != Add
    ensures ApplyOp(root, Op(kind, ElementPath(coll, id), value), false)
            == Ok(root[coll := Arr(if kind.Remove? then Elements(root, coll)[..i] + Elements(root, coll)[i + 1..]
                                   else Elements(root, coll)[i := value])])
  {
    var items := Elements(root, coll);
    var after := root[coll := Arr(if kind.Remove? then items[..i] + items[i + 1..] else items[i := value])];
    ResolveElement(root, coll, id, i);
    ElementPathAllowed(coll, id);
    IndexTokens(coll, i, |items|);
    PatchElement(root, coll, i, kind, value);
    ApplyResolved(root, Op(kind, ElementPath(coll, id), value), ElementPath(coll, Itoa(i)), [coll, Itoa(i)], after);
  }

  lemma {:induction false} IndexTokens(coll: string, i: nat, n: nat)
    requires Collection(coll) && i < n
    ensures SplitPointer(ElementPath(coll, Itoa(i))) == Some([coll, Itoa(i)])
  {
    IndexPlain(i, n);
    UnescapePlain(Itoa(i));
    PathTokens(coll, Itoa(i));
  }

  lemma {:induction false} PatchElement(root: Members, coll: string, i: nat, kind: Kind, value: Json)
    requires coll in root && root[coll].Arr? && i < |root[coll].items| && kind != Add
    ensures PatchAt(Obj(root), [coll, Itoa(i)], kind, value)
            == Some(Obj(root[coll := Arr(if kind.Remove? then root[coll].items[..i] + root[coll].items[i + 1..]
                                         else root[coll].items[i := value])]))
  {
    IndexPlain(i, |root[coll].items|);
    PatchItem(root, coll, Itoa(i), kind, value);
  }

  /** An addition at the end of a collection. */
  lemma {:induction false} ApplyAdd(root: Members, coll: string, value: Json)
    requires Collection(coll) && coll in root && root[coll].Arr?
    ensures ApplyOp(root, Op(Add, ElementPath(coll, "-"), value), false) == Ok(root[coll := Arr(Elements(root, coll) + [value])])
  {
    CollectionPlain(coll);
    ElementPathAllowed(coll, "-");
    UnescapePlain("-");
    PathTokens(coll, "-");
    PatchItem(root, coll, "-", Add, value);
    ApplyResolved(root, Op(Add, ElementPath(coll, "-"), value), ElementPath(coll, "-"), [coll, "-"],
                  root[coll := Arr(Elements(root, coll) + [value])]);
  }

  lemma {:induction false} PatchItem(root: Members, coll: string, token: string, kind: Kind, value: Json)
    requires coll in root && root[coll].Arr?
    ensures var leaf := PatchLeaf(root[coll], token, kind, value);
            PatchAt(Obj(root), [coll, token], kind, value) == if leaf.None? then None else Some(Obj(root[coll := leaf.value]))
  {
    assert [coll, token][1..] == [token];
  }

  predicate RootMember(name: string) { name == "attrs" || name == "name" || name == "identities" }

  lemma {:induction false} RootPath(name: string)
    requires RootMember(name)
    ensures !IsSystemPath("/" + name) && !IsProtected("/" + name)
    ensures Split(("/" + name)[1..], '/') == [name] && SplitPointer("/" + name) == Some([name])
  {
    var p := "/" + name;
    assert p[1..] == name;
    SplitWord(name, '/');
    UnescapePlain(name);
    assert SplitPointer(p).value == [name];
    assert !UnderRoot(p, "/findings") && !UnderRoot(p, "/evidence") && !UnderRoot(p, "/provenance");
    assert p[1] == name[0] && |p| == |name| + 1;
    assert p[1..] != "id" && p[1..] != "tenant_id";
  }

  /** An operation on a root member. */
  lemma {:induction false} ApplyRoot(root: Members, name: string, kind: Kind, value: Json)
    requires RootMember(name) && (kind.Add? || name in root)
    ensures ApplyOp(root, Op(kind, "/" + name, value), false)
            == Ok(if kind.Remove? then root - {name} else root[name := value])
  {
    RootPath(name);
  }

  lemma {:induction false} RunAppend(apply: Applier, root: Members, a: seq<Op>, b: seq<Op>)
    requires RunOps(apply, root, a).Ok?
    ensures RunOps(apply, root, a + b) == RunOps(apply, RunOps(apply, root, a).value, b)
    decreases |b|
  {
    if b == [] {
      assert a + b == a;
    } else {
      assert (a + b)[..|a + b| - 1] == a + b[..|b| - 1];
      RunAppend(apply, root, a, b[..|b| - 1]);
    }
  }
}
