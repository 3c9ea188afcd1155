/** What a patch may touch, what an operation leaves at every path, and the order and the result of a diff
    (model/patch.go). */
module PatchLaws {
  import opened Options
  import opened Text
  import opened Json
  import opened Pointers
  import opened SecretPaths
  import opened Patches
  import opened Diffing

  // ---- what a patch may not touch ----------------------------------------------------------------

  /** The path is the root member or lies below it. */
  ghost predicate Within(p: string, root: string) { p == root || exists rest: string :: p == root + "/" + rest }

  lemma {:induction false} SystemIff(p: string)
    ensures IsSystemPath(p) <==> Within(p, "/findings") || Within(p, "/evidence") || Within(p, "/provenance")
  {
    UnderIs(p, "/findings");
    UnderIs(p, "/evidence");
    UnderIs(p, "/provenance");
  }

  lemma {:induction false} UnderIs(p: string, root: string)
    ensures UnderRoot(p, root) <==> Within(p, root)
  {
    if root + "/" <= p {
      assert p == root + "/" + p[|root| + 1..];
    }
    if rest: string :| p == root + "/" + rest {
      assert root + "/" <= p;
    }
  }

  /** Findings, evidence and provenance are out of a client's reach, and the document's own fields and the document
      as a whole out of anyone's; no other operation is refused for what it touches. */
  lemma {:induction false} RefusedPaths(root: Members, op: Op, allowSystem: bool)
    ensures ApplyOp(root, op, allowSystem) == Err(System) <==>
            !allowSystem && (Within(op.path, "/findings") || Within(op.path, "/evidence") || Within(op.path, "/provenance"))
    ensures ApplyOp(root, op, allowSystem) == Err(Protected) <==>
            op.path in {"/id", "/tenant_id", "/version", "/schema_version", "/created_at", "/updated_at", ""}
  {
    SystemIff(op.path);
    Refusals(root, op, allowSystem);
    if IsProtected(op.path) {
      OwnIsNoSystem(op.path);
    }
  }

  lemma {:induction false} Refusals(root: Members, op: Op, allowSystem: bool)
    ensures ApplyOp(root, op, allowSystem) == Err(System) <==> !allowSystem && IsSystemPath(op.path)
    ensures ApplyOp(root, op, allowSystem) == Err(Protected) <==> IsProtected(op.path) && (allowSystem || !IsSystemPath(op.path))
  {
    LaterErrors(root, op.path);
  }

  lemma {:induction false} LaterErrors(root: Members, path: string)
    ensures ResolvePath(root, path) != Err(System) && ResolvePath(root, path) != Err(Protected)
  {}

  lemma OwnIsNoSystem(p: string)
    requires IsProtected(p)
    ensures !IsSystemPath(p)
  {
    assert |p| > 1 ==> p[1] in {'i', 't', 'v', 's', 'c', 'u'};
    assert "/findings"[1] == 'f' && "/evidence"[1] == 'e' && "/provenance"[1] == 'p';
  }

  // ---- which element a path names ----------------------------------------------------------------

  /** A segment names the first element with that id, even where it reads as a number. */
  lemma {:induction false} SegmentNames(root: Members, coll: string, key: string, i: nat)
    requires Texted(root, coll) && key != "-" && i < |root[coll].items| && IdText(root[coll].items[i]) == key
    requires forall j | 0 <= j < i :: IdText(root[coll].items[j]) != key
    ensures Patches.Located(root, coll, key) == Ok(Some(i))
  {
    TextsAreIds(root, coll);
  }

  /** A number no element has as its id stays an index, and so does "-"; anything else no element has names none. */
  lemma {:induction false} SegmentMisses(root: Members, coll: string, key: string, i: nat)
    requires Texted(root, coll) && forall j | 0 <= j < |root[coll].items| :: IdText(root[coll].items[j]) != key
    ensures Patches.Located(root, coll, key) == if key == "-" || IsNumber(key) then Ok(None) else Err(NoElement)
    ensures i < 1_000_000_000 && key == Itoa(i) ==> IsNumber(key)
  {
    TextsAreIds(root, coll);
    if i < 1_000_000_000 {
      NumberReads(i);
    }
  }

  /** The collection is an array of elements with an id each. */
  predicate Texted(root: Members, coll: string) {
    coll in root && root[coll].Arr? && forall j | 0 <= j < |root[coll].items| :: HasText(root[coll].items[j])
  }

  lemma TextsAreIds(root: Members, coll: string)
    requires Texted(root, coll)
    ensures Readable(root, coll) && Elements(root, coll) == root[coll].items
    ensures forall j | 0 <= j < |root[coll].items| :: Patches.IdOf(root[coll].items[j]) == Some(IdText(root[coll].items[j]))
  {
    forall j | 0 <= j < |root[coll].items|
      ensures Patches.IdOf(root[coll].items[j]) == Some(IdText(root[coll].items[j]))
    {
      assert HasText(root[coll].items[j]);
    }
  }

  predicate HasText(j: Json) { j.Obj? && "id" in j.members && j.members["id"].Str? }

  function IdText(j: Json): string { if HasText(j) then j.members["id"].s else "" }

  lemma {:induction false} DigitsValue(n: nat)
    ensures Value(Digits(n)) == n
  {
    if n < 10 {
      assert Digits(n)[..0] == "" && Value("") == 0;
    } else {
      DigitsValue(n / 10);
      assert Digits(n)[..|Digits(n)| - 1] == Digits(n / 10);
    }
  }

  lemma NumberReads(i: nat)
    requires i < 1_000_000_000
    ensures IsNumber(Itoa(i))
  {
    DigitsValue(i);
    assert Itoa(i)[0] !in {'+', '-'};
  }

  // ---- what an operation leaves ------------------------------------------------------------------

  /** On an object: add sets the member, replace sets one that is there, remove takes one that is there away, and no
      other member changes. */
  lemma {:induction false} MemberOperation(m: Members, token: string, value: Json)
    ensures PatchLeaf(Obj(m), token, Add, value) == Some(Obj(m[token := value]))
    ensures PatchLeaf(Obj(m), token, Replace, value) == if token in m then Some(Obj(m[token := value])) else None
    ensures PatchLeaf(Obj(m), token, Remove, value) == if token in m then Some(Obj(m - {token})) else None
  {}

  /** On an array: add puts the value before the item at the index, or at the end, replace changes the item, remove
      takes it out; the items before and after keep their order. */
  lemma {:induction false} ItemAdded(items: seq<Json>, i: nat, value: Json)
    ensures i <= |items| ==> PatchLeaf(Arr(items), Itoa(i), Add, value) == Some(Arr(items[..i] + [value] + items[i..]))
    ensures i > |items| ==> PatchLeaf(Arr(items), Itoa(i), Add, value) == None
    ensures PatchLeaf(Arr(items), "-", Add, value) == Some(Arr(items + [value]))
  {
    IndexIs(i, |items| + 1);
    NoDash(i);
  }

  lemma {:induction false} ItemOperation(items: seq<Json>, i: nat, value: Json)
    ensures i < |items| ==> PatchLeaf(Arr(items), Itoa(i), Replace, value) == Some(Arr(items[..i] + [value] + items[i + 1..]))
    ensures i < |items| ==> PatchLeaf(Arr(items), Itoa(i), Remove, value) == Some(Arr(items[..i] + items[i + 1..]))
    ensures i >= |items| ==> PatchLeaf(Arr(items), Itoa(i), Replace, value) == PatchLeaf(Arr(items), Itoa(i), Remove, value) == None
    ensures PatchLeaf(Arr(items), "-", Replace, value) == PatchLeaf(Arr(items), "-", Remove, value) == None
  {
    IndexIs(i, |items|);
    forall j: nat ensures Itoa(j) != "-" {
      NoDash(j);
    }
    assert i < |items| ==> items[i := value] == items[..i] + [value] + items[i + 1..];
  }

  lemma NoDash(i: nat)
    ensures Itoa(i) != "-"
  {
    assert Itoa(i)[0] != '-';
  }

  lemma {:induction false} IndexIs(i: nat, n: nat)
    ensures IndexOf(Itoa(i), n) == if i < n then Some(i) else None
  {
    var at := IndexOf(Itoa(i), n);
    if at.Some? {
      ItoaInjective(at.value, i);
    }
  }

  /** Neither path leads through the other. */
  predicate Separate(q: Pointer, w: Pointer) { !(q <= w) && !(w <= q) }

  /** An operation succeeds exactly when its parent is there and takes it; then the parent is what the operation makes of
      it. */
  lemma {:induction false} OperationAtPath(v: Json, front: Pointer, token: string, kind: Kind, value: Json)
    ensures var after := PatchAt(v, front + [token], kind, value);
            (after.Some? <==> Holds(v, front) && PatchLeaf(ValueAt(v, front), token, kind, value).Some?)
            && (after.Some? ==>
                  Holds(after.value, front) && Some(ValueAt(after.value, front)) == PatchLeaf(ValueAt(v, front), token, kind, value))
    decreases |front|
  {
    if front == [] {
      assert front + [token] == [token];
    } else {
      assert (front + [token])[1..] == front[1..] + [token] && (front + [token])[0] == front[0];
      match v
      case Obj(m) =>
        if front[0] in m {
          OperationAtPath(m[front[0]], front[1..], token, kind, value);
        }
      case Arr(items) =>
        if IndexOf(front[0], |items|).Some? {
          OperationAtPath(items[IndexOf(front[0], |items|).value], front[1..], token, kind, value);
        }
      case _ =>
    }
  }

  /** Two values hold the same at a path. */
  predicate SameAt(v: Json, w: Json, q: Pointer) {
    (Holds(w, q) <==> Holds(v, q)) && (Holds(v, q) && Holds(w, q) ==> ValueAt(w, q) == ValueAt(v, q))
  }

  /** Every value at a path apart from the parent's is as it was. */
  lemma {:induction false} OperationApart(v: Json, front: Pointer, token: string, kind: Kind, value: Json, q: Pointer)
    requires PatchAt(v, front + [token], kind, value).Some? && Separate(q, front)
    ensures SameAt(v, PatchAt(v, front + [token], kind, value).value, q)
    decreases |front|
  {
    if front != [] {
      assert (front + [token])[1..] == front[1..] + [token] && (front + [token])[0] == front[0];
      ApartBelow(q, front);
      if q[0] == front[0] {
        var inner := if v.Obj? then v.members[front[0]] else v.items[IndexOf(front[0], |v.items|).value];
        OperationApart(inner, front[1..], token, kind, value, q[1..]);
      } else if v.Arr? {
        var at, other := IndexOf(front[0], |v.items|).value, IndexOf(q[0], |v.items|);
        assert other.Some? ==> other.value != at;
      }
    }
  }

  lemma ApartBelow(q: Pointer, w: Pointer)
    requires w != []
    ensures Separate(q, w) ==> q != [] && (q[0] == w[0] ==> Separate(q[1..], w[1..]))
  {
    if q != [] && q[0] == w[0] {
      assert q == [q[0]] + q[1..] && w == [w[0]] + w[1..];
      assert q[1..] <= w[1..] ==> q <= w;
      assert w[1..] <= q[1..] ==> w <= q;
    }
  }

  // ---- the diff ----------------------------------------------------------------------------------

  /** Where an operation of a diff stands: what goes before what comes before what changes, edges leave first and
      come last, the identities between, the root members at the end. */
  predicate Stands(op: Op, n: nat) {
    match n
    case 0 => op.kind.Remove? && "/edges/" <= op.path
    case 1 => op.kind.Remove? && "/nodes/" <= op.path
    case 2 => op.kind.Remove? && "/groups/" <= op.path
    case 3 => op.path == "/identities" && !op.kind.Replace?
    case 4 => op.kind.Add? && op.path == "/groups/-"
    case 5 => op.kind.Add? && op.path == "/nodes/-"
    case 6 => op.kind.Add? && op.path == "/edges/-"
    case 7 => op.kind.Replace? && "/groups/" <= op.path
    case 8 => op.kind.Replace? && "/nodes/" <= op.path
    case 9 => op.kind.Replace? && "/edges/" <= op.path
    case 10 => op.kind.Replace? && op.path == "/attrs"
    case 11 => op.kind.Replace? && op.path == "/name"
    case _ => false
  }

  /** Each operation stands at a place from lo to hi, and none before a smaller one. */
  ghost predicate Ordered(ops: seq<Op>, places: seq<nat>, lo: nat, hi: nat) {
    |places| == |ops| && (forall i | 0 <= i < |ops| :: lo <= places[i] <= hi && Stands(ops[i], places[i]))
    && forall i, j | 0 <= i < j < |places| :: places[i] <= places[j]
  }

  lemma {:induction false} OrderedTogether(a: seq<Op>, x: seq<nat>, b: seq<Op>, y: seq<nat>, lo: nat, mid: nat, hi: nat)
    requires Ordered(a, x, lo, mid) && Ordered(b, y, mid, hi) && lo <= mid <= hi
    ensures Ordered(a + b, x + y, lo, hi)
  {}

  lemma {:induction false} AllStand(ops: seq<Op>, n: nat) returns (places: seq<nat>)
    requires forall i | 0 <= i < |ops| :: Stands(ops[i], n)
    ensures Ordered(ops, places, n, n)
  {
    places := seq(|ops|, i => n);
  }

  lemma {:induction false} ChangesStand(cs: seq<Change>, n: nat)
    requires forall i | 0 <= i < |cs| :: Stands(ToOp(cs[i]), n)
    ensures |Ops(cs)| == |cs| && forall i | 0 <= i < |cs| :: Stands(Ops(cs)[i], n)
  {
    if cs != [] {
      ChangesStand(cs[..|cs| - 1], n);
    }
  }

  /** Where the operations of a collection stand in their part. */
  function PlaceOf(coll: string, part: Part): nat {
    match part
    case Gone => if coll == "edges" then 0 else if coll == "nodes" then 1 else 2
    case New => if coll == "groups" then 4 else if coll == "nodes" then 5 else 6
    case Changed => if coll == "groups" then 7 else if coll == "nodes" then 8 else 9
  }

  lemma {:induction false} PathStands(coll: string, segment: string)
    requires Collection(coll)
    ensures "/" + coll + "/" <= ElementPath(coll, segment)
    ensures ElementPath(coll, "-") == "/" + coll + "/-"
  {}

  lemma {:induction false} GoneStand(coll: string, items: seq<Json>, keep: map<string, Json>)
    requires Collection(coll)
    ensures forall c | c in Removals(coll, items, keep) :: Stands(ToOp(c), PlaceOf(coll, Gone))
  {
    if items != [] {
      GoneStand(coll, items[..|items| - 1], keep);
      PathStands(coll, Id(items[|items| - 1]));
    }
  }

  lemma {:induction false} NewStand(coll: string, items: seq<Json>, had: map<string, Json>)
    requires Collection(coll)
    ensures forall c | c in Additions(coll, items, had) :: Stands(ToOp(c), PlaceOf(coll, New))
  {
    if items != [] {
      NewStand(coll, items[..|items| - 1], had);
      PathStands(coll, "-");
    }
  }

  lemma {:induction false} ChangedStand(coll: string, items: seq<Json>, had: map<string, Json>)
    requires Collection(coll)
    ensures forall c | c in Replacements(coll, items, had) :: Stands(ToOp(c), PlaceOf(coll, Changed))
  {
    if items != [] {
      ChangedStand(coll, items[..|items| - 1], had);
      PathStands(coll, Id(items[|items| - 1]));
    }
  }

  lemma {:induction false} PartStands(from: Members, to: Members, coll: string, part: Part) returns (places: seq<nat>)
    requires Shaped(from) && Shaped(to) && Collection(coll)
    ensures Ordered(PartsOf(from, to)(coll, part), places, PlaceOf(coll, part), PlaceOf(coll, part))
  {
    var cs := Changes(from, to, coll, part);
    match part {
      case Gone => GoneStand(coll, from[coll].items, Has(to, coll));
      case New => NewStand(coll, to[coll].items, Has(from, coll));
      case Changed => ChangedStand(coll, to[coll].items, Has(from, coll));
    }
    ChangesStand(cs, PlaceOf(coll, part));
    places := AllStand(Ops(cs), PlaceOf(coll, part));
  }

  lemma {:induction false} ThreeStand(from: Members, to: Members, a: string, b: string, c: string, part: Part) returns (places: seq<nat>)
    requires Shaped(from) && Shaped(to) && Collection(a) && Collection(b) && Collection(c)
    requires PlaceOf(a, part) <= PlaceOf(b, part) <= PlaceOf(c, part)
    ensures Ordered(Three(PartsOf(from, to), a, b, c, part), places, PlaceOf(a, part), PlaceOf(c, part))
  {
    var x := PartStands(from, to, a, part);
    var y := PartStands(from, to, b, part);
    var z := PartStands(from, to, c, part);
    var parts := PartsOf(from, to);
    OrderedTogether(parts(a, part), x, parts(b, part), y, PlaceOf(a, part), PlaceOf(b, part), PlaceOf(b, part));
    OrderedTogether(parts(a, part) + parts(b, part), x + y, parts(c, part), z, PlaceOf(a, part), PlaceOf(b, part), PlaceOf(c, part));
    places := x + y + z;
  }

  lemma {:induction false} Widened(ops: seq<Op>, places: seq<nat>, lo: nat, hi: nat, lower: nat, higher: nat)
    requires Ordered(ops, places, lo, hi) && lower <= lo && hi <= higher
    ensures Ordered(ops, places, lower, higher)
  {}

  lemma {:induction false} RootStand(from: Members, to: Members) returns (x: seq<nat>, y: seq<nat>)
    requires Shaped(from) && Shaped(to)
    ensures Ordered(IdentityOps(from, to), x, 3, 3)
    ensures Ordered(MemberOps(from, to, "attrs") + MemberOps(from, to, "name"), y, 10, 11)
  {
    x := AllStand(IdentityOps(from, to), 3);
    assert "/" + "attrs" == "/attrs" && "/" + "name" == "/name";
    var a := AllStand(MemberOps(from, to, "attrs"), 10);
    var b := AllStand(MemberOps(from, to, "name"), 11);
    Widened(MemberOps(from, to, "name"), b, 11, 11, 10, 11);
    OrderedTogether(MemberOps(from, to, "attrs"), a, MemberOps(from, to, "name"), b, 10, 10, 11);
    y := a + b;
  }

  lemma {:induction false} FiveOrdered(a: seq<Op>, pa: seq<nat>, b: seq<Op>, pb: seq<nat>, c: seq<Op>, pc: seq<nat>,
                                       d: seq<Op>, pd: seq<nat>, e: seq<Op>, pe: seq<nat>)
    requires Ordered(a, pa, 0, 2) && Ordered(b, pb, 3, 3) && Ordered(c, pc, 4, 6) && Ordered(d, pd, 7, 9) && Ordered(e, pe, 10, 11)
    ensures Ordered(a + (b + (c + (d + e))), pa + (pb + (pc + (pd + pe))), 0, 11)
  {
    Widened(d, pd, 7, 9, 7, 10);
    OrderedTogether(d, pd, e, pe, 7, 10, 11);
    Widened(c, pc, 4, 6, 4, 7);
    OrderedTogether(c, pc, d + e, pd + pe, 4, 7, 11);
    Widened(b, pb, 3, 3, 3, 4);
    OrderedTogether(b, pb, c + (d + e), pc + (pd + pe), 3, 4, 11);
    Widened(a, pa, 0, 2, 0, 3);
    OrderedTogether(a, pa, b + (c + (d + e)), pb + (pc + (pd + pe)), 0, 3, 11);
  }

  /** The operations of a diff come in order: no reference is left to an element that is gone, and none is made to one
      that is not there yet. */
  lemma {:induction false} DiffIsOrdered(from: Members, to: Members) returns (places: seq<nat>)
    requires Shaped(from) && Shaped(to)
    ensures Ordered(DiffOps(from, to), places, 0, 11)
  {
    var parts := PartsOf(from, to);
    var gone := ThreeStand(from, to, "edges", "nodes", "groups", Gone);
    var added := ThreeStand(from, to, "groups", "nodes", "edges", New);
    var changed := ThreeStand(from, to, "groups", "nodes", "edges", Changed);
    var identities, members := RootStand(from, to);
    FiveOrdered(Three(parts, "edges", "nodes", "groups", Gone), gone, IdentityOps(from, to), identities,
                Three(parts, "groups", "nodes", "edges", New), added, Three(parts, "groups", "nodes", "edges", Changed), changed,
                MemberOps(from, to, "attrs") + MemberOps(from, to, "name"), members);
    places := gone + (identities + (added + (changed + members)));
  }

  /** The elements of a collection are those of the target. */
  ghost predicate HoldsElements(after: Members, to: Members, coll: string) {
    coll in after && after[coll].Arr? && coll in to && to[coll].Arr? && |after[coll].items| == |to[coll].items|
    && forall e :: e in after[coll].items <==> e in to[coll].items
  }

  /** A member is as it is there, or absent as it is there. */
  predicate AsIn(after: Members, m: Members, k: string) {
    (k in after <==> k in m) && (k in m && k in after ==> after[k] == m[k])
  }

  /** Running a diff leaves exactly the elements of the target, its identities, root attributes and name, and every
      other member of the document as it was. */
  lemma {:induction false} DiffReaches(from: Members, to: Members) returns (after: Members)
    requires Shaped(from) && Shaped(to)
    ensures RunOps(ApplierOf(false), from, DiffOps(from, to)) == Ok(after)
    ensures HoldsElements(after, to, "nodes") && HoldsElements(after, to, "edges") && HoldsElements(after, to, "groups")
    ensures AsIn(after, to, "identities") && AsIn(after, to, "attrs") && AsIn(after, to, "name")
    ensures forall k | k !in {"nodes", "edges", "groups", "identities", "attrs", "name"} :: AsIn(after, from, k)
  {
    after := DiffRoundTrip(from, to);
    BecameElements(after, from, to, "nodes");
    BecameElements(after, from, to, "edges");
    BecameElements(after, from, to, "groups");
    BecameMembers(after, from, to);
  }

  lemma {:induction false} BecameElements(after: Members, from: Members, to: Members, coll: string)
    requires Becomes(after, from, to) && Collection(coll)
    ensures HoldsElements(after, to, coll)
  {
    assert SameElements(after, to, coll);
    SameById(after[coll].items, to[coll].items);
  }

  lemma {:induction false} BecameMembers(after: Members, from: Members, to: Members)
    requires Becomes(after, from, to)
    ensures AsIn(after, to, "identities") && AsIn(after, to, "attrs") && AsIn(after, to, "name")
    ensures forall k | k !in {"nodes", "edges", "groups", "identities", "attrs", "name"} :: AsIn(after, from, k)
  {
    forall k | k !in {"nodes", "edges", "groups", "identities", "attrs", "name"} ensures AsIn(after, from, k) {
      assert Same(after, from, k);
    }
  }

  lemma {:induction false} SameById(xs: seq<Json>, ys: seq<Json>)
    requires Named(xs) && Named(ys) && ById(xs) == ById(ys)
    ensures |xs| == |ys| && forall e :: e in xs <==> e in ys
  {
    ByIdHolds(xs);
    ByIdHolds(ys);
  }

  lemma {:induction false} ByIdHolds(items: seq<Json>)
    requires Named(items)
    ensures |ById(items)| == |items|
    ensures forall e :: e in items <==> Id(e) in ById(items) && ById(items)[Id(e)] == e
  {
    if items != [] {
      var rest, last := items[..|items| - 1], items[|items| - 1];
      assert items == rest + [last];
      NotBefore(items);
      ByIdHolds(rest);
    }
  }

  // ---- the models a diff is between --------------------------------------------------------------

  /** An array of objects whose ids are distinct texts without a slash that read the same unescaped and are not "-". */
  predicate Distinguishable(v: Json) {
    v.Arr?
    && (forall i | 0 <= i < |v.items| ::
          v.items[i].Obj? && "id" in v.items[i].members && v.items[i].members["id"].Str?
          && var id := v.items[i].members["id"].s; '/' !in id && Unescape(id) == id && id != "-")
    && forall i, j | 0 <= i < j < |v.items| :: v.items[i].members["id"] != v.items[j].members["id"]
  }

  /** A diff is between any two models whose elements can be told apart by path, with root attributes and a name. */
  lemma {:induction false} ShapedIff(m: Members)
    ensures Shaped(m) <==>
            (forall coll | coll in ["nodes", "edges", "groups"] :: coll in m && Distinguishable(m[coll]))
            && "attrs" in m && "name" in m && ("identities" in m ==> m["identities"].Arr? && m["identities"].items != [])
  {
    NamedIff(m, "nodes");
    NamedIff(m, "edges");
    NamedIff(m, "groups");
  }

  lemma {:induction false} NamedIff(m: Members, coll: string)
    ensures NamedCollection(m, coll) <==> coll in m && Distinguishable(m[coll])
  {
    if coll in m && m[coll].Arr? {
      var items := m[coll].items;
      if Named(items) {
        forall i | 0 <= i < |items|
          ensures items[i].Obj? && "id" in items[i].members && items[i].members["id"].Str? && PlainId(items[i].members["id"].s)
        {
          assert HasPlainId(items[i]);
        }
      }
      if Distinguishable(m[coll]) {
        forall i | 0 <= i < |items| ensures HasPlainId(items[i]) {}
      }
    }
  }

  // ---- collections that do not read --------------------------------------------------------------

  /** A collection reads when it is absent, null, or an array of objects whose ids, where they have one, are texts or
      null. */
  predicate Reads(root: Members, coll: string) {
    coll in root && root[coll] != Null ==>
      root[coll].Arr? && forall j | j in root[coll].items ::
        j.Obj? && ("id" in j.members ==> j.members["id"].Str? || j.members["id"] == Null)
  }

  /** A segment is refused for its collection exactly when that does not read and the segment is neither "-" nor a free
      index; where the collection reads, the element is there or the segment is refused for it. */
  lemma {:induction false} BadCollectionIff(root: Members, coll: string, key: string)
    requires key != "-" && !IsNumber(key)
    ensures Patches.Located(root, coll, key) == Err(BadCollection) <==> !Reads(root, coll)
    ensures coll !in root || root[coll] == Null ==> Patches.Located(root, coll, key) == Err(NoElement)
  {
    if coll in root && root[coll].Arr? {
      var items := root[coll].items;
      forall i | 0 <= i < |items| ensures items[i] in items {}
    }
  }
}
