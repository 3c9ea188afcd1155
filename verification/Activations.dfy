/** withUnknowns on the heap (rules/engine.go:400-493): the activation is copied map by map, and only the
    copies are written. What the copy stands for is Coverage.WithUnknowns. */
module Activations {
  import opened Options
  import opened Cel
  import opened Coverage
  import opened Guards

  /** A map of an activation. A graph is an object with the fields of its struct. */
  class Obj {
    var m: map<string, Cell>

    constructor (m: map<string, Cell>)
      ensures this.m == m
    {
      this.m := m;
    }
  }

  /** A member: a value without maps, or a reference to a map. */
  datatype Cell = Leaf(v: Value) | Ref(o: Obj)

  type Heap = map<Obj, map<string, Cell>>

  type Path = seq<string>

  // ---- what the heap stands for ------------------------------------------------------------------

  /** The cell stands for the value, in the heap before the call. */
  ghost predicate Denotes(c: Cell, v: Value, h0: Heap)
    decreases v
  {
    match c
    case Leaf(x) => x == v && !v.MapV?
    case Ref(o) => v.MapV? && o in h0 && h0[o].Keys == v.m.Keys && forall k | k in v.m :: Denotes(h0[o][k], v.m[k], h0)
  }

  /** The maps the call owns, as a tree: the members that hold copies. */
  datatype Spine = Spine(o: Obj, kids: map<string, Spine>)

  /** The owned tree stands for the value: a member that is no copy is one of the heap before the call. */
  ghost predicate Holds(s: Spine, v: Env, h0: Heap, h: Heap)
    decreases s, 1
  {
    s.o in h && s.o !in h0 && h[s.o].Keys == v.Keys && s.kids.Keys <= v.Keys && forall k | k in v :: Slot(s, v, h0, h, k)
  }

  ghost predicate Slot(s: Spine, v: Env, h0: Heap, h: Heap, k: string)
    requires k in v && s.o in h && h[s.o].Keys == v.Keys
    decreases s, 0
  {
    if k in s.kids then h[s.o][k] == Ref(s.kids[k].o) && v[k].MapV? && Holds(s.kids[k], v[k].m, h0, h)
    else Denotes(h[s.o][k], v[k], h0)
  }

  /** The objects of the tree are its own, each in one place. */
  ghost predicate Apart(s: Spine) {
    (forall k | k in s.kids :: Apart(s.kids[k]) && s.o !in Owns(s.kids[k]))
    && forall k, l | k in s.kids && l in s.kids && k != l :: Owns(s.kids[k]) !! Owns(s.kids[l])
  }

  ghost function Owns(s: Spine): set<Obj> {
    {s.o} + set k, x | k in s.kids && x in Owns(s.kids[k]) :: x
  }

  ghost predicate SameOn(objs: set<Obj>, h: Heap, g: Heap) {
    forall o | o in objs && o in h :: o in g && g[o] == h[o]
  }

  /** Writing elsewhere changes nothing the tree stands for. */
  lemma {:induction false} HoldsStays(s: Spine, v: Env, h0: Heap, h: Heap, g: Heap)
    requires Holds(s, v, h0, h) && SameOn(Owns(s), h, g)
    ensures Holds(s, v, h0, g)
    decreases s
  {
    forall k | k in v ensures Slot(s, v, h0, g, k) {
      assert Slot(s, v, h0, h, k);
      if k in s.kids {
        forall o | o in Owns(s.kids[k]) && o in h ensures o in g && g[o] == h[o] {
          assert o in Owns(s);
        }
        HoldsStays(s.kids[k], v[k].m, h0, h, g);
      }
    }
  }

  // ---- one write ---------------------------------------------------------------------------------

  function SetIn(v: Env, path: Path, f: string, u: Value): Env
    decreases |path|
  {
    if path == [] then v[f := u] else v[path[0] := MapV(SetIn(MapAt(v, path[0]), path[1..], f, u))]
  }

  function Node(s: Spine, path: Path): Option<Spine>
    decreases |path|
  {
    if path == [] then Some(s) else if path[0] in s.kids then Node(s.kids[path[0]], path[1..]) else None
  }

  lemma {:induction false} NodeOwned(s: Spine, path: Path)
    requires Node(s, path).Some?
    ensures Node(s, path).value.o in Owns(s)
    decreases |path|
  {
    if path != [] {
      NodeOwned(s.kids[path[0]], path[1..]);
    }
  }

  /** A member of an owned map set to a plain value. */
  lemma {:induction false} SetHolds(s: Spine, v: Env, h0: Heap, h: Heap, path: Path, f: string, u: Value)
    requires Holds(s, v, h0, h) && Apart(s) && Node(s, path).Some? && f !in Node(s, path).value.kids && !u.MapV?
    requires Node(s, path).value.o in h
    ensures var o := Node(s, path).value.o; Holds(s, SetIn(v, path, f, u), h0, h[o := h[o][f := Leaf(u)]])
    decreases |path|
  {
    var o := Node(s, path).value.o;
    if path == [] {
      SetHere(s, v, h0, h, f, u);
    } else {
      assert Slot(s, v, h0, h, path[0]);
      NodeOwned(s.kids[path[0]], path[1..]);
      SetHolds(s.kids[path[0]], v[path[0]].m, h0, h, path[1..], f, u);
      KidWritten(s, v, h0, h, h[o := h[o][f := Leaf(u)]], path[0], s.kids[path[0]], SetIn(v[path[0]].m, path[1..], f, u), o);
      assert s.kids[path[0] := s.kids[path[0]]] == s.kids;
    }
  }

  lemma {:induction false} SetHere(s: Spine, v: Env, h0: Heap, h: Heap, f: string, u: Value)
    requires Holds(s, v, h0, h) && Apart(s) && f !in s.kids && !u.MapV?
    ensures Holds(s, v[f := u], h0, h[s.o := h[s.o][f := Leaf(u)]])
  {
    var g, w := h[s.o := h[s.o][f := Leaf(u)]], v[f := u];
    forall k | k in w ensures Slot(s, w, h0, g, k) {
      if k != f {
        assert Slot(s, v, h0, h, k);
        if k in s.kids {
          KidStays(s, v, h0, h, g, k, s.o);
        }
      }
    }
  }

  /** A write inside one kid, which may have got a copy more. */
  lemma {:induction false} KidWritten(s: Spine, v: Env, h0: Heap, h: Heap, g: Heap, key: string, kid: Spine, m: Env, o: Obj)
    requires Holds(s, v, h0, h) && Apart(s) && key in s.kids && o in Owns(s.kids[key])
    requires kid.o == s.kids[key].o && Holds(kid, m, h0, g) && forall x | x in h && x != o :: x in g && g[x] == h[x]
    ensures Holds(Spine(s.o, s.kids[key := kid]), v[key := MapV(m)], h0, g)
  {
    var t, w := Spine(s.o, s.kids[key := kid]), v[key := MapV(m)];
    assert Slot(s, v, h0, h, key);
    assert s.o != o;
    forall k | k in w ensures Slot(t, w, h0, g, k) {
      if k != key {
        assert Slot(s, v, h0, h, k);
        if k in s.kids {
          KidStays(s, v, h0, h, g, k, o);
        }
      }
    }
  }

  /** A kid is untouched by a write to an object outside it. */
  lemma {:induction false} KidStays(s: Spine, v: Env, h0: Heap, h: Heap, g: Heap, k: string, o: Obj)
    requires k in s.kids && k in v && v[k].MapV? && Holds(s.kids[k], v[k].m, h0, h)
    requires o !in Owns(s.kids[k]) && forall x | x in h && x != o :: x in g && g[x] == h[x]
    ensures Holds(s.kids[k], v[k].m, h0, g)
  {
    HoldsStays(s.kids[k], v[k].m, h0, h, g);
  }

  // ---- one copy ----------------------------------------------------------------------------------

  /** The value with a map at the member: an absent one or one of another shape reads as empty. */
  function EnsureIn(v: Env, path: Path, key: string): Env
    decreases |path|
  {
    if path == [] then v[key := MapV(MapAt(v, key))] else v[path[0] := MapV(EnsureIn(MapAt(v, path[0]), path[1..], key))]
  }

  function AddKid(s: Spine, path: Path, key: string, child: Spine): Spine
    decreases |path|
  {
    if path == [] then Spine(s.o, s.kids[key := child])
    else if path[0] in s.kids then Spine(s.o, s.kids[path[0] := AddKid(s.kids[path[0]], path[1..], key, child)])
    else s
  }

  /** The members a copy starts with. */
  ghost function Cloned(c: map<string, Cell>, key: string, h0: Heap): map<string, Cell> {
    if key in c && c[key].Ref? && c[key].o in h0 then h0[c[key].o] else map[]
  }

  lemma {:induction false} AddKidOwns(s: Spine, path: Path, key: string, o: Obj)
    requires Node(s, path).Some? && key !in Node(s, path).value.kids
    ensures Owns(AddKid(s, path, key, Spine(o, map[]))) == Owns(s) + {o}
    decreases |path|
  {
    var child := Spine(o, map[]);
    assert Owns(child) == {o};
    var t := AddKid(s, path, key, child);
    if path == [] {
      assert forall k | k in s.kids :: t.kids[k] == s.kids[k];
      assert key in t.kids && t.kids[key] == child;
    } else {
      AddKidOwns(s.kids[path[0]], path[1..], key, o);
      assert path[0] in t.kids;
      assert forall k | k in s.kids && k != path[0] :: t.kids[k] == s.kids[k];
    }
    OwnsAre(s, t, path, key, o);
  }

  lemma {:induction false} OwnsAre(s: Spine, t: Spine, path: Path, key: string, o: Obj)
    requires t.o == s.o
    requires path == [] ==> key !in s.kids && t.kids == s.kids[key := Spine(o, map[])]
    requires path != [] ==> path[0] in s.kids && t.kids.Keys == s.kids.Keys
                            && Owns(t.kids[path[0]]) == Owns(s.kids[path[0]]) + {o}
                            && forall k | k in s.kids && k != path[0] :: t.kids[k] == s.kids[k]
    ensures Owns(t) == Owns(s) + {o}
  {
    forall x | x in Owns(t) ensures x in Owns(s) + {o} {
      if x != t.o {
        var k :| k in t.kids && x in Owns(t.kids[k]);
        assert path == [] && k == key ==> Owns(t.kids[k]) == {o};
      }
    }
    forall x | x in Owns(s) + {o} ensures x in Owns(t) {
      if x in Owns(s) && x != s.o {
        var k :| k in s.kids && x in Owns(s.kids[k]);
        assert k in t.kids && x in Owns(t.kids[k]);
      }
      if x == o {
        var k := if path == [] then key else path[0];
        assert k in t.kids && o in Owns(t.kids[k]);
      }
    }
  }

  lemma {:induction false} KidOwns(s: Spine, k: string)
    ensures k in s.kids ==> Owns(s.kids[k]) <= Owns(s)
  {}

  lemma {:induction false} AddKidApart(s: Spine, path: Path, key: string, o: Obj)
    requires Apart(s) && Node(s, path).Some? && key !in Node(s, path).value.kids && o !in Owns(s)
    ensures Apart(AddKid(s, path, key, Spine(o, map[])))
    decreases |path|
  {
    if path == [] {
      assert Owns(Spine(o, map[])) == {o};
      KidApart(s, key, Spine(o, map[]), o);
    } else {
      var kid, rest := s.kids[path[0]], path[1..];
      KidOwns(s, path[0]);
      AddKidApart(kid, rest, key, o);
      AddKidOwns(kid, rest, key, o);
      KidApart(s, path[0], AddKid(kid, rest, key, Spine(o, map[])), o);
    }
  }

  /** A kid new or grown by one object the tree did not own. */
  lemma {:induction false} KidApart(s: Spine, key: string, kid: Spine, o: Obj)
    requires Apart(s) && Apart(kid) && o !in Owns(s)
    requires Owns(kid) <= {o} + if key in s.kids then Owns(s.kids[key]) else {}
    ensures Apart(Spine(s.o, s.kids[key := kid]))
  {
    var t := Spine(s.o, s.kids[key := kid]);
    forall k | k in t.kids ensures Apart(t.kids[k]) && t.o !in Owns(t.kids[k]) {
      assert k in s.kids ==> Apart(s.kids[k]) && s.o !in Owns(s.kids[k]);
    }
    forall k, l | k in t.kids && l in t.kids && k != l ensures Owns(t.kids[k]) !! Owns(t.kids[l]) {
      KidOwns(s, k);
      KidOwns(s, l);
      assert k in s.kids && l in s.kids ==> Owns(s.kids[k]) !! Owns(s.kids[l]);
    }
  }

  lemma {:induction false} NodeIn(s: Spine, v: Env, h0: Heap, h: Heap, path: Path)
    requires Holds(s, v, h0, h) && Node(s, path).Some?
    ensures Node(s, path).value.o in h
    decreases |path|
  {
    if path != [] {
      assert Slot(s, v, h0, h, path[0]);
      NodeIn(s.kids[path[0]], v[path[0]].m, h0, h, path[1..]);
    }
  }

  /** A fresh copy stands for the map the member held, or for an empty one. */
  lemma {:induction false} CloneHolds(c: Cell, v: Value, has: bool, h0: Heap, g: Heap, child: Obj)
    requires child !in h0 && child in g && (has ==> Denotes(c, v, h0))
    requires g[child] == if has && c.Ref? && c.o in h0 then h0[c.o] else map[]
    ensures Holds(Spine(child, map[]), if has && v.MapV? then v.m else map[], h0, g)
  {
    var m := if has && v.MapV? then v.m else map[];
    assert g[child].Keys == m.Keys;
    forall k | k in m ensures Slot(Spine(child, map[]), m, h0, g, k) {}
  }

  /** A member replaced by a copy of the map it holds. */
  lemma {:induction false} CopyHolds(s: Spine, v: Env, h0: Heap, h: Heap, path: Path, key: string, child: Obj)
    requires Holds(s, v, h0, h) && Apart(s) && Node(s, path).Some? && key !in Node(s, path).value.kids
    requires Node(s, path).value.o in h && child !in h && child !in h0
    ensures var o := Node(s, path).value.o;
            Holds(AddKid(s, path, key, Spine(child, map[])), EnsureIn(v, path, key), h0,
                  h[child := Cloned(h[o], key, h0)][o := h[o][key := Ref(child)]])
    decreases |path|
  {
    var o := Node(s, path).value.o;
    var g := h[child := Cloned(h[o], key, h0)][o := h[o][key := Ref(child)]];
    if path == [] {
      CopyHere(s, v, h0, h, key, child);
    } else {
      var kid, rest := s.kids[path[0]], path[1..];
      assert Slot(s, v, h0, h, path[0]);
      NodeOwned(kid, rest);
      CopyHolds(kid, v[path[0]].m, h0, h, rest, key, child);
      AddKidRoot(kid, rest, key, Spine(child, map[]));
      KidWritten(s, v, h0, h, g, path[0], AddKid(kid, rest, key, Spine(child, map[])), EnsureIn(v[path[0]].m, rest, key), o);
    }
  }

  lemma AddKidRoot(s: Spine, path: Path, key: string, child: Spine)
    ensures AddKid(s, path, key, child).o == s.o
  {}

  lemma {:induction false} CopyHere(s: Spine, v: Env, h0: Heap, h: Heap, key: string, child: Obj)
    requires Holds(s, v, h0, h) && Apart(s) && key !in s.kids && child !in h && child !in h0
    ensures Holds(Spine(s.o, s.kids[key := Spine(child, map[])]), v[key := MapV(MapAt(v, key))], h0,
                  h[child := Cloned(h[s.o], key, h0)][s.o := h[s.o][key := Ref(child)]])
  {
    var g := h[child := Cloned(h[s.o], key, h0)][s.o := h[s.o][key := Ref(child)]];
    var t, w := Spine(s.o, s.kids[key := Spine(child, map[])]), v[key := MapV(MapAt(v, key))];
    assert key in v ==> Slot(s, v, h0, h, key);
    CloneHolds(if key in v then h[s.o][key] else Leaf(NullV), if key in v then v[key] else NullV, key in v, h0, g, child);
    forall k | k in w ensures Slot(t, w, h0, g, k) {
      if k != key {
        assert Slot(s, v, h0, h, k);
        if k in s.kids {
          KidStays(s, v, h0, h, g, k, s.o);
        }
      }
    }
  }

  // ---- copies do not change what a write sets ----------------------------------------------------

  lemma {:induction false} EnsureThenSet(v: Env, path: Path, key: string, full: Path, f: string, u: Value)
    requires path + [key] <= full
    ensures SetIn(EnsureIn(v, path, key), full, f, u) == SetIn(v, full, f, u)
    decreases |path|
  {
    if path != [] {
      assert path[1..] + [key] <= full[1..] by {
        assert (path + [key])[1..] == path[1..] + [key];
        assert full[..|path| + 1] == path + [key];
        assert full[1..][..|path|] == full[..|path| + 1][1..];
      }
      EnsureThenSet(MapAt(v, path[0]), path[1..], key, full[1..], f, u);
      assert full[0] == path[0];
    } else {
      assert full[0] == key;
    }
  }

  lemma {:induction false} SetThenEnsure(v: Env, path: Path, key: string, f: string, u: Value)
    requires f != key
    ensures SetIn(EnsureIn(v, path, key), path, f, u) == EnsureIn(SetIn(v, path, f, u), path, key)
    decreases |path|
  {
    if path != [] {
      SetThenEnsure(MapAt(v, path[0]), path[1..], key, f, u);
    }
  }

  // ---- the finished copy -------------------------------------------------------------------------

  lemma {:induction false} DenotesMore(c: Cell, v: Value, h0: Heap, g: Heap)
    requires Denotes(c, v, h0) && forall o | o in h0 :: o in g && g[o] == h0[o]
    ensures Denotes(c, v, g)
    decreases v
  {
    if c.Ref? {
      forall k | k in v.m ensures Denotes(g[c.o][k], v.m[k], g) {
        DenotesMore(h0[c.o][k], v.m[k], h0, g);
      }
    }
  }

  /** The owned tree, read in the whole heap, stands for its value. */
  lemma {:induction false} HoldsDenotes(s: Spine, v: Env, h0: Heap, h: Heap)
    requires Holds(s, v, h0, h) && h.Keys !! h0.Keys
    ensures Denotes(Ref(s.o), MapV(v), h0 + h)
    decreases s
  {
    var g := h0 + h;
    forall k | k in v ensures Denotes(g[s.o][k], v[k], g) {
      assert Slot(s, v, h0, h, k);
      if k in s.kids {
        HoldsDenotes(s.kids[k], v[k].m, h0, h);
      } else {
        DenotesMore(h[s.o][k], v[k], h0, g);
      }
    }
  }

  // ---- the nodes of the tree ---------------------------------------------------------------------

  /** After a copy the tree has one node more; the others keep their objects. */
  lemma {:induction false} NodesAfter(s: Spine, path: Path, key: string, child: Obj, q: Path)
    requires Node(s, path).Some? && key !in Node(s, path).value.kids
    ensures var t := AddKid(s, path, key, Spine(child, map[]));
            (Node(t, q).Some? <==> Node(s, q).Some? || q == path + [key])
            && (Node(s, q).Some? ==> Node(t, q).value.o == Node(s, q).value.o)
            && (q == path + [key] ==> Node(t, q) == Some(Spine(child, map[])))
    decreases |path|
  {
    var t := AddKid(s, path, key, Spine(child, map[]));
    if q != [] {
      if path == [] {
        assert q == [key] <==> q[0] == key && q[1..] == [];
      } else {
        NodesAfter(s.kids[path[0]], path[1..], key, child, q[1..]);
        assert path == [path[0]] + path[1..];
        assert q == path + [key] <==> q[0] == path[0] && q[1..] == path[1..] + [key];
      }
    }
  }

  lemma {:induction false} KidIsNode(s: Spine, path: Path, key: string)
    requires Node(s, path).Some?
    ensures key in Node(s, path).value.kids <==> Node(s, path + [key]).Some?
    ensures key in Node(s, path).value.kids ==> Node(s, path + [key]).value == Node(s, path).value.kids[key]
    decreases |path|
  {
    if path == [] {
      assert [key][1..] == [];
    } else {
      assert (path + [key])[1..] == path[1..] + [key];
      KidIsNode(s.kids[path[0]], path[1..], key);
    }
  }

  /** A copy is where its parent's member refers. */
  lemma {:induction false} KidReferred(s: Spine, v: Env, h0: Heap, h: Heap, path: Path, key: string)
    requires Holds(s, v, h0, h) && Node(s, path).Some? && key in Node(s, path).value.kids
    ensures var t := Node(s, path).value; t.o in h && key in h[t.o] && h[t.o][key] == Ref(t.kids[key].o)
    decreases |path|
  {
    if path == [] {
      assert Slot(s, v, h0, h, key);
    } else {
      assert Slot(s, v, h0, h, path[0]);
      KidReferred(s.kids[path[0]], v[path[0]].m, h0, h, path[1..], key);
    }
  }

  // ---- the copy on write -------------------------------------------------------------------------

  /** Where an object of the scope is. */
  predicate RootPath(p: Path) { p == ["n"] || p == ["e"] || p == ["e", "from"] || p == ["e", "to"] }

  /** The maps withUnknowns copies. */
  ghost predicate CopyPath(p: Path) {
    RootPath(p) || p == ["g"] || p == ["g", "attrs"]
    || (exists r :: RootPath(r) && (p == r + ["attrs"] || p == r + ["identity"] || p == r + ["identity", "attrs"]))
  }

  ghost predicate Untouched(h0: Heap)
    reads h0.Keys
  {
    forall o | o in h0 :: o.m == h0[o]
  }

  ghost function CopyPaths(): iset<Path> { iset p: Path | CopyPath(p) }

  /** The closure of withUnknowns: the copied activation and which of its maps are copies. */
  class Writer {
    const sub: Obj
    var copied: set<Path>
    ghost const h0: Heap
    ghost const allowed: iset<Path>
    ghost var h: Heap
    ghost var spine: Spine
    ghost var value: Env

    /** The copy of the activation itself. */
    constructor (vars: Obj, ghost env: Env, ghost h0: Heap, ghost allowed: iset<Path>)
      requires Untouched(h0) && Denotes(Ref(vars), MapV(env), h0)
      ensures Valid() && this.h0 == h0 && this.allowed == allowed && value == env && copied == {} && fresh(h.Keys)
    {
      var top := new Obj(vars.m);
      sub := top;
      copied := {};
      this.h0 := h0;
      this.allowed := allowed;
      h := map[top := vars.m];
      spine := Spine(top, map[]);
      value := env;
      new;
      assert top !in h0;
      forall k | k in env ensures Slot(spine, env, h0, h, k) {}
    }

    /** The owned maps are as recorded, stand for the value, and are copied where the flags say. */
    ghost predicate Valid()
      reads this, h.Keys
    {
      spine.o == sub && h.Keys !! h0.Keys && Stands(spine, value, h0, h, copied, allowed) && forall o | o in h :: o.m == h[o]
    }

    /** maps.Clone of the map a member holds, or an empty map. */
    method Clone(parent: Obj, ghost path: Path, key: string) returns (child: Obj)
      requires Valid() && Untouched(h0)
      requires Node(spine, path).Some? && parent == Node(spine, path).value.o && key !in Node(spine, path).value.kids
      ensures fresh(child) && parent in h && child.m == Cloned(h[parent], key, h0)
    {
      NodeIn(spine, value, h0, h, path);
      var fields: map<string, Cell> := map[];
      if key in parent.m && parent.m[key].Ref? {
        OldMember(spine, value, h0, h, path, key);
        fields := parent.m[key].o.m;
      }
      child := new Obj(fields);
    }

    /** A fresh copy of the map at a member of an owned map. */
    method Copy(parent: Obj, path: Path, key: string) returns (child: Obj)
      requires Valid() && Untouched(h0) && path + [key] in allowed && path + [key] !in copied
      requires Node(spine, path).Some? && parent == Node(spine, path).value.o
      modifies this`copied, this`h, this`spine, this`value, h.Keys
      ensures Valid() && Untouched(h0) && fresh(h.Keys - old(h.Keys)) && copied == old(copied) + {path + [key]}
      ensures Node(spine, path + [key]).Some? && child == Node(spine, path + [key]).value.o && child in h
      ensures Node(spine, path).Some? && parent == Node(spine, path).value.o && parent in h
      ensures value == EnsureIn(old(value), path, key)
    {
      NotYet(spine, copied, allowed, path, key);
      child := Clone(parent, path, key);
      CopyStands(spine, value, h0, h, copied, allowed, path, key, child);
      NodesAfter(spine, path, key, child, path);
      ghost var g := h[child := child.m][parent := h[parent][key := Ref(child)]];
      Link(parent, path, key, child, g, AddKid(spine, path, key, Spine(child, map[])), EnsureIn(value, path, key));
    }

    /** The member refers to the copy. */
    method Link(parent: Obj, path: Path, key: string, child: Obj, ghost g: Heap, ghost t: Spine, ghost v: Env)
      requires Valid() && Untouched(h0) && parent in h && child !in h && child !in h0
      requires g == h[child := child.m][parent := h[parent][key := Ref(child)]]
      requires Stands(t, v, h0, g, copied + {path + [key]}, allowed) && t.o == sub
      modifies this`copied, this`h, this`spine, this`value, parent
      ensures Valid() && Untouched(h0) && h == g && spine == t && value == v && copied == old(copied) + {path + [key]}
    {
      parent.m := parent.m[key := Ref(child)];
      h, spine, value := g, t, v;
      copied := copied + {path + [key]};
    }

    /** A member of an owned map set to an unknown. */
    method SetMember(o: Obj, ghost path: Path, f: string, u: Value)
      requires Valid() && Untouched(h0) && !u.MapV?
      requires Node(spine, path).Some? && o == Node(spine, path).value.o && o in h && path + [f] !in copied
      modifies this`h, this`value, o
      ensures Valid() && Untouched(h0) && h.Keys == old(h.Keys) && value == SetIn(old(value), path, f, u)
    {
      NotYet(spine, copied, allowed, path, f);
      SetHolds(spine, value, h0, h, path, f, u);
      ghost var g := h[o := h[o][f := Leaf(u)]];
      o.m := o.m[f := Leaf(u)];
      h, value := g, SetIn(value, path, f, u);
    }

    /** The copy at a member of an owned map, made when there is none yet. */
    method CopyOnce(parent: Obj, path: Path, key: string) returns (o: Obj)
      requires Valid() && Untouched(h0) && path + [key] in allowed
      requires Node(spine, path).Some? && parent == Node(spine, path).value.o && parent in h
      modifies this`copied, this`h, this`spine, this`value, h.Keys
      ensures Valid() && Untouched(h0) && fresh(h.Keys - old(h.Keys))
      ensures Node(spine, path + [key]).Some? && o == Node(spine, path + [key]).value.o && o in h
      ensures Node(spine, path).Some? && parent == Node(spine, path).value.o && parent in h
      ensures value == old(value) || value == EnsureIn(old(value), path, key)
    {
      if path + [key] !in copied {
        o := Copy(parent, path, key);
      } else {
        CopiedKid(spine, value, h0, h, copied, allowed, path, key);
        o := parent.m[key].o;
      }
    }

    /** mapAt: the copy of the map at a path, below copies of what holds it. */
    method MapAtPath(path: Path) returns (o: Obj)
      requires Valid() && Untouched(h0) && forall n | 0 < n <= |path| :: path[..n] in allowed
      modifies this`copied, this`h, this`spine, this`value, h.Keys
      ensures Valid() && Untouched(h0) && fresh(h.Keys - old(h.Keys))
      ensures Node(spine, path).Some? && o == Node(spine, path).value.o && o in h
      ensures SameSets(value, old(value), path)
      decreases |path|
    {
      if |path| == 0 {
        NodeIn(spine, value, h0, h, path);
        return sub;
      }
      var front, key := path[..|path| - 1], path[|path| - 1];
      FrontPaths(path, allowed);
      var parent := MapAtPath(front);
      SameSetsStep(old(value), value, front, key);
      o := CopyOnce(parent, front, key);
      assert front + [key] == path;
    }

    /** The copies of an identity and of its attributes. */
    method IdentityAt(ri: Path, ria: Path) returns (o: Obj, d: Obj)
      requires Valid() && Untouched(h0) && ria == ri + ["attrs"] && ria in allowed
      requires forall n | 0 < n <= |ri| :: ri[..n] in allowed
      modifies this`copied, this`h, this`spine, this`value, h.Keys
      ensures Valid() && Untouched(h0) && fresh(h.Keys - old(h.Keys))
      ensures Node(spine, ri).Some? && o == Node(spine, ri).value.o && o in h
      ensures Node(spine, ria).Some? && d == Node(spine, ria).value.o && d in h
      ensures SameIdentities(value, old(value), ri, ria)
    {
      o := MapAtPath(ri);
      IdentitiesSame(old(value), value, ri, ria);
      d := CopyOnce(o, ri, "attrs");
    }

    /** One missing fact set to its unknown. */
    method SetUnknown(ghost scope: Scope, p: RequiredPath, u: Value)
      requires allowed == CopyPaths() && Valid() && Untouched(h0) && WellFormed(scope, p) && !u.MapV?
      modifies this`copied, this`h, this`spine, this`value, h.Keys
      ensures Valid() && Untouched(h0) && fresh(h.Keys - old(h.Keys)) && value == SetFact(old(value), p, u)
    {
      match p.root
      case RootKB =>
        NodeIn(spine, value, h0, h, []);
        KbIsNoCopy();
        SetMember(sub, [], "kb", u);
      case RootG =>
        NodeIn(spine, value, h0, h, []);
        if "g" in sub.m {
          SetGraphAttr(p.fact.name, u);
        }
      case _ =>
        SetScopeFact(scope, p, u);
    }

    method SetGraphAttr(name: string, u: Value)
      requires allowed == CopyPaths() && Valid() && Untouched(h0) && !u.MapV?
      modifies this`copied, this`h, this`spine, this`value, h.Keys
      ensures Valid() && Untouched(h0) && fresh(h.Keys - old(h.Keys)) && value == SetIn(old(value), ["g", "attrs"], name, u)
    {
      GraphPaths(name);
      SetField(["g", "attrs"], name, u);
    }

    method SetField(r: Path, name: string, u: Value)
      requires Valid() && Untouched(h0) && !u.MapV? && r + [name] !in allowed
      requires forall n | 0 < n <= |r| :: r[..n] in allowed
      modifies this`copied, this`h, this`spine, this`value, h.Keys
      ensures Valid() && Untouched(h0) && fresh(h.Keys - old(h.Keys)) && value == SetIn(old(value), r, name, u)
    {
      var o := MapAtPath(r);
      assert SameSet(value, old(value), r, name, u);
      SetMember(o, r, name, u);
    }

    method SetIdentity(ri: Path, ria: Path, name: string, u: Value)
      requires Valid() && Untouched(h0) && !u.MapV? && name != "attrs" && ria == ri + ["attrs"] && ria in allowed
      requires ri + [name] !in allowed && ria + [name] !in allowed
      requires forall n | 0 < n <= |ri| :: ri[..n] in allowed
      modifies this`copied, this`h, this`spine, this`value, h.Keys
      ensures Valid() && Untouched(h0) && fresh(h.Keys - old(h.Keys))
      ensures value == SetIn(SetIn(old(value), ri, name, u), ria, name, u)
    {
      var o, d := IdentityAt(ri, ria);
      assert SameIdentity(value, old(value), ri, ria, name, u);
      SetMember(o, ri, name, u);
      SetMember(d, ria, name, u);
    }

    method SetScopeFact(ghost scope: Scope, p: RequiredPath, u: Value)
      requires allowed == CopyPaths() && Valid() && Untouched(h0) && WellFormed(scope, p) && p.root != RootKB && p.root != RootG && !u.MapV?
      modifies this`copied, this`h, this`spine, this`value, h.Keys
      ensures Valid() && Untouched(h0) && fresh(h.Keys - old(h.Keys)) && value == SetFactAt(old(value), RootOf(p.root), p.fact, u)
    {
      match p.fact
      case Field(name) =>
        PlainFieldPaths(scope, p);
        SetField(RootOf(p.root), name, u);
      case Attr(name) =>
        AttrFactPaths(scope, p);
        SetField(RootOf(p.root) + ["attrs"], name, u);
      case Identity(name) =>
        IdentityFactPaths(scope, p);
        SetIdentity(RootOf(p.root) + ["identity"], RootOf(p.root) + ["identity"] + ["attrs"], name, u);
    }
  }

  lemma {:induction false} PlainFieldPaths(scope: Scope, p: RequiredPath)
    requires WellFormed(scope, p) && p.root != RootKB && p.root != RootG && p.fact.Field?
    ensures var r := RootOf(p.root); r + [p.fact.name] !in CopyPaths() && forall n | 0 < n <= |r| :: r[..n] in CopyPaths()
  {
    FactIsNoCopy(scope, p);
    RootPaths(p.root);
  }

  lemma {:induction false} AttrFactPaths(scope: Scope, p: RequiredPath)
    requires WellFormed(scope, p) && p.root != RootKB && p.root != RootG && p.fact.Attr?
    ensures var r := RootOf(p.root) + ["attrs"];
            r + [p.fact.name] !in CopyPaths() && forall n | 0 < n <= |r| :: r[..n] in CopyPaths()
  {
    FactIsNoCopy(scope, p);
    AttrPaths(p.root);
  }

  lemma {:induction false} IdentityFactPaths(scope: Scope, p: RequiredPath)
    requires WellFormed(scope, p) && p.root != RootKB && p.root != RootG && p.fact.Identity?
    ensures var ri, ria := RootOf(p.root) + ["identity"], RootOf(p.root) + ["identity"] + ["attrs"];
            p.fact.name != "attrs" && ria in CopyPaths() && ri + [p.fact.name] !in CopyPaths() && ria + [p.fact.name] !in CopyPaths()
            && ria == RootOf(p.root) + ["identity", "attrs"] && forall n | 0 < n <= |ri| :: ri[..n] in CopyPaths()
  {
    FactIsNoCopy(scope, p);
    IdentityPaths(p.root);
  }

  lemma {:induction false} FrontPaths(path: Path, allowed: iset<Path>)
    requires path != [] && forall n | 0 < n <= |path| :: path[..n] in allowed
    ensures var front := path[..|path| - 1];
            front + [path[|path| - 1]] == path && path in allowed && forall n | 0 < n <= |front| :: front[..n] in allowed
  {
    var front := path[..|path| - 1];
    assert path[..|path|] == path;
    forall n | 0 < n <= |front| ensures front[..n] in allowed {
      assert front[..n] == path[..n];
    }
  }

  lemma {:induction false} CopiedKid(s: Spine, v: Env, h0: Heap, h: Heap, copied: set<Path>, allowed: iset<Path>, path: Path, key: string)
    requires Stands(s, v, h0, h, copied, allowed) && Node(s, path).Some? && path + [key] in copied
    ensures var t := Node(s, path).value;
            t.o in h && key in h[t.o] && h[t.o][key].Ref? && Node(s, path + [key]).Some?
            && h[t.o][key].o == Node(s, path + [key]).value.o && h[t.o][key].o in h
  {
    assert FlagAt(copied, s, path + [key]);
    KidIsNode(s, path, key);
    KidReferred(s, v, h0, h, path, key);
    NodeIn(s, v, h0, h, path + [key]);
  }

  /** Writes at or below the path give the same from either value. */
  ghost predicate SameSets(v: Env, w: Env, path: Path) {
    forall full, f, u | path <= full :: SameSet(v, w, full, f, u)
  }

  lemma {:induction false} SameSetsStep(v0: Env, v: Env, front: Path, key: string)
    requires SameSets(v, v0, front)
    ensures SameSets(v, v0, front + [key]) && SameSets(EnsureIn(v, front, key), v0, front + [key])
  {
    forall full, f, u | front + [key] <= full
      ensures SameSet(v, v0, full, f, u) && SameSet(EnsureIn(v, front, key), v0, full, f, u)
    {
      assert front <= full by {
        assert full[..|front|] == full[..|front| + 1][..|front|] == front;
      }
      assert SameSet(v, v0, full, f, u);
      EnsureThenSet(v, front, key, full, f, u);
    }
  }

  /** The writes of an identity fact give the same from either value. */
  ghost predicate SameIdentity(v: Env, w: Env, ri: Path, ria: Path, f: string, u: Value) {
    SetIn(SetIn(v, ri, f, u), ria, f, u) == SetIn(SetIn(w, ri, f, u), ria, f, u)
  }

  ghost predicate SameIdentities(v: Env, w: Env, ri: Path, ria: Path) {
    forall f, u | f != "attrs" :: SameIdentity(v, w, ri, ria, f, u)
  }

  lemma {:induction false} IdentitiesSame(v0: Env, v: Env, ri: Path, ria: Path)
    requires SameSets(v, v0, ri) && ria == ri + ["attrs"]
    ensures SameIdentities(v, v0, ri, ria) && SameIdentities(EnsureIn(v, ri, "attrs"), v0, ri, ria)
  {
    forall f, u | f != "attrs"
      ensures SameIdentity(v, v0, ri, ria, f, u) && SameIdentity(EnsureIn(v, ri, "attrs"), v0, ri, ria, f, u)
    {
      assert SameSet(v, v0, ri, f, u);
      SetThenEnsure(v, ri, "attrs", f, u);
      EnsureThenSet(SetIn(v, ri, f, u), ri, "attrs", ria, f, u);
    }
  }

  /** A write at the path gives the same from either value. */
  ghost predicate SameSet(v: Env, w: Env, full: Path, f: string, u: Value) {
    SetIn(v, full, f, u) == SetIn(w, full, f, u)
  }

  /** The flags name the nodes of the tree below the root. */
  ghost predicate FlagAt(copied: set<Path>, s: Spine, q: Path) {
    q in copied <==> Node(s, q).Some?
  }

  ghost predicate Stands(s: Spine, v: Env, h0: Heap, h: Heap, copied: set<Path>, allowed: iset<Path>) {
    Apart(s) && Holds(s, v, h0, h) && Flags(copied, s, allowed)
  }

  ghost predicate Flags(copied: set<Path>, s: Spine, allowed: iset<Path>) {
    (forall q | q != [] :: FlagAt(copied, s, q)) && forall q | q in copied :: q != [] && q in allowed
  }

  lemma {:induction false} NotYet(s: Spine, copied: set<Path>, allowed: iset<Path>, path: Path, key: string)
    requires Flags(copied, s, allowed) && Node(s, path).Some? && path + [key] !in copied
    ensures key !in Node(s, path).value.kids
  {
    KidIsNode(s, path, key);
    assert FlagAt(copied, s, path + [key]);
  }

  lemma {:induction false} OwnsInHeap(s: Spine, v: Env, h0: Heap, h: Heap)
    requires Holds(s, v, h0, h)
    ensures Owns(s) <= h.Keys
    decreases s
  {
    forall x | x in Owns(s) ensures x in h {
      if x != s.o {
        var k :| k in s.kids && x in Owns(s.kids[k]);
        assert Slot(s, v, h0, h, k);
        OwnsInHeap(s.kids[k], v[k].m, h0, h);
      }
    }
  }

  lemma {:induction false} CopyFlags(s: Spine, copied: set<Path>, allowed: iset<Path>, path: Path, key: string, child: Obj)
    requires Flags(copied, s, allowed) && Node(s, path).Some? && key !in Node(s, path).value.kids && path + [key] in allowed
    ensures var t := AddKid(s, path, key, Spine(child, map[]));
            Flags(copied + {path + [key]}, t, allowed) && Node(t, path + [key]) == Some(Spine(child, map[]))
            && Node(t, path).Some? && t.o == s.o
  {
    var t := AddKid(s, path, key, Spine(child, map[]));
    var more := copied + {path + [key]};
    forall q | q != [] ensures FlagAt(more, t, q) {
      NodesAfter(s, path, key, child, q);
      assert FlagAt(copied, s, q);
    }
    NodesAfter(s, path, key, child, path + [key]);
    NodesAfter(s, path, key, child, path);
  }

  /** A copy keeps the state standing. */
  lemma {:induction false} CopyStands(s: Spine, v: Env, h0: Heap, h: Heap, copied: set<Path>, allowed: iset<Path>, path: Path, key: string, child: Obj)
    requires Stands(s, v, h0, h, copied, allowed) && Node(s, path).Some? && key !in Node(s, path).value.kids && path + [key] in allowed
    requires Node(s, path).value.o in h && child !in h && child !in h0
    ensures var o := Node(s, path).value.o;
            var t := AddKid(s, path, key, Spine(child, map[]));
            Stands(t, EnsureIn(v, path, key), h0, h[child := Cloned(h[o], key, h0)][o := h[o][key := Ref(child)]],
                   copied + {path + [key]}, allowed)
            && Node(t, path + [key]) == Some(Spine(child, map[])) && t.o == s.o
  {
    CopyHolds(s, v, h0, h, path, key, child);
    OwnsInHeap(s, v, h0, h);
    AddKidApart(s, path, key, child);
    CopyFlags(s, copied, allowed, path, key, child);
  }

  lemma {:induction false} OldMember(s: Spine, v: Env, h0: Heap, h: Heap, path: Path, key: string)
    requires Holds(s, v, h0, h) && Node(s, path).Some? && key !in Node(s, path).value.kids
    requires var c := Node(s, path).value.o; c in h && key in h[c] && h[c][key].Ref?
    ensures h[Node(s, path).value.o][key].o in h0
    decreases |path|
  {
    if path == [] {
      assert Slot(s, v, h0, h, key);
    } else {
      assert Slot(s, v, h0, h, path[0]);
      OldMember(s.kids[path[0]], v[path[0]].m, h0, h, path[1..], key);
    }
  }

  // ---- withUnknowns ------------------------------------------------------------------------------

  function RootOf(r: Root): Path {
    match r
    case RootN => ["n"]
    case RootE => ["e"]
    case RootFrom => ["e", "from"]
    case RootTo => ["e", "to"]
    case _ => []
  }

  /** The write of one fact, path by path. */
  function SetFact(v: Env, p: RequiredPath, u: Value): Env {
    match p.root
    case RootKB => SetIn(v, [], "kb", u)
    case RootG => if "g" in v then SetIn(v, ["g", "attrs"], p.fact.name, u) else v
    case _ => SetFactAt(v, RootOf(p.root), p.fact, u)
  }

  function GraphFields(g: Value): Env
    requires g.GraphV?
  {
    map["id" := StrV(g.id), "attrs" := MapV(g.attrs), "prov" := g.prov]
  }

  predicate GraphOrNone(env: Env) { "g" in env ==> env["g"].GraphV? }

  /** The environment with its graph as the fields of its struct: how it lies on the heap. */
  function Spread(env: Env): Env {
    if "g" in env && env["g"].GraphV? then env["g" := MapV(GraphFields(env["g"]))] else env
  }

  /** The scope variable a fact of the scope is read from is there. */
  predicate InScope(scope: Scope, env: Env) {
    match scope
    case NodeScope => "n" in env && env["n"].MapV?
    case EdgeScope => "e" in env && env["e"].MapV?
    case _ => true
  }

  // ---- the write of a fact, path by path, is the write of Coverage -------------------------------

  function SetFactIn(obj: Env, f: Fact, u: Value): Env {
    match f
    case Field(name) => SetIn(obj, [], name, u)
    case Attr(name) => SetIn(obj, ["attrs"], name, u)
    case Identity(name) => SetIn(SetIn(obj, ["identity"], name, u), ["identity", "attrs"], name, u)
  }

  lemma {:induction false} SetBelow(v: Env, k: string, rest: Path, f: string, u: Value)
    ensures SetIn(v, [k] + rest, f, u) == v[k := MapV(SetIn(MapAt(v, k), rest, f, u))]
  {
    assert ([k] + rest)[1..] == rest;
  }

  lemma {:induction false} WriteFactIsSet(obj: Env, f: Fact, u: Value)
    requires f.Identity? ==> f.name != "attrs"
    ensures WriteFact(obj, f, u) == SetFactIn(obj, f, u)
  {
    match f
    case Field(name) =>
    case Attr(name) =>
      SetBelow(obj, "attrs", [], name, u);
      assert ["attrs"] + [] == ["attrs"];
    case Identity(name) =>
      var once := SetIn(obj, ["identity"], name, u);
      SetBelow(obj, "identity", [], name, u);
      assert ["identity"] + [] == ["identity"];
      SetBelow(once, "identity", ["attrs"], name, u);
      assert ["identity"] + ["attrs"] == ["identity", "attrs"];
      SetBelow(MapAt(once, "identity"), "attrs", [], name, u);
      assert ["attrs"] + [] == ["attrs"];
  }

  /** The paths of a fact below an object. */
  function SetFactAt(v: Env, r: Path, f: Fact, u: Value): Env {
    match f
    case Field(name) => SetIn(v, r, name, u)
    case Attr(name) => SetIn(v, r + ["attrs"], name, u)
    case Identity(name) => SetIn(SetIn(v, r + ["identity"], name, u), r + ["identity", "attrs"], name, u)
  }

  lemma {:induction false} FactBelow(v: Env, k: string, r: Path, f: Fact, u: Value)
    ensures SetFactAt(v, [k] + r, f, u) == v[k := MapV(SetFactAt(MapAt(v, k), r, f, u))]
  {
    match f
    case Field(name) => SetBelow(v, k, r, name, u);
    case Attr(name) =>
      assert [k] + r + ["attrs"] == [k] + (r + ["attrs"]);
      SetBelow(v, k, r + ["attrs"], name, u);
    case Identity(name) =>
      assert [k] + r + ["identity"] == [k] + (r + ["identity"]);
      assert [k] + r + ["identity", "attrs"] == [k] + (r + ["identity", "attrs"]);
      SetBelow(v, k, r + ["identity"], name, u);
      SetBelow(SetIn(v, [k] + (r + ["identity"]), name, u), k, r + ["identity", "attrs"], name, u);
  }

  lemma {:induction false} FactHere(v: Env, f: Fact, u: Value)
    ensures SetFactAt(v, [], f, u) == SetFactIn(v, f, u)
  {
    assert [] + ["attrs"] == ["attrs"] && [] + ["identity"] == ["identity"] && [] + ["identity", "attrs"] == ["identity", "attrs"];
  }

  lemma {:induction false} ScopeFact(v: Env, k: string, f: Fact, u: Value)
    requires f.Identity? ==> f.name != "attrs"
    ensures SetFactAt(v, [k], f, u) == v[k := MapV(WriteFact(MapAt(v, k), f, u))]
  {
    FactBelow(v, k, [], f, u);
    assert [k] + [] == [k];
    FactHere(MapAt(v, k), f, u);
    WriteFactIsSet(MapAt(v, k), f, u);
  }

  lemma {:induction false} SideFact(v: Env, side: string, f: Fact, u: Value)
    requires f.Identity? ==> f.name != "attrs"
    ensures SetFactAt(v, ["e", side], f, u) == WriteEndpoint(v, side, f, u)
  {
    FactBelow(v, "e", [side], f, u);
    assert ["e"] + [side] == ["e", side];
    ScopeFact(MapAt(v, "e"), side, f, u);
  }

  lemma {:induction false} GraphFact(env: Env, name: string, u: Value)
    requires "g" in env && env["g"].GraphV?
    ensures SetIn(Spread(env), ["g", "attrs"], name, u) == Spread(env["g" := env["g"].(attrs := env["g"].attrs[name := u])])
  {
    var v := Spread(env);
    SetBelow(v, "g", ["attrs"], name, u);
    assert ["g"] + ["attrs"] == ["g", "attrs"];
    SetBelow(MapAt(v, "g"), "attrs", [], name, u);
    assert ["attrs"] + [] == ["attrs"];
    var g := env["g"];
    var written := g.(attrs := g.attrs[name := u]);
    assert GraphFields(written) == GraphFields(g)["attrs" := MapV(g.attrs[name := u])];
    assert MapAt(MapAt(v, "g"), "attrs") == g.attrs;
    assert env["g" := written]["g" := MapV(GraphFields(written))] == v["g" := MapV(GraphFields(written))];
  }

  lemma {:induction false} SpreadMember(env: Env, k: string, w: Value)
    requires k != "g"
    ensures Spread(env[k := w]) == Spread(env)[k := w] && MapAt(Spread(env), k) == MapAt(env, k)
  {}

  lemma {:induction false} WriteIsSet(scope: Scope, env: Env, p: RequiredPath, u: Value)
    requires WellFormed(scope, p) && GraphOrNone(env)
    ensures SetFact(Spread(env), p, u) == Spread(Write(env, p, u)) && GraphOrNone(Write(env, p, u))
  {
    match p.root
    case RootKB => SpreadMember(env, "kb", u);
    case RootG =>
      if "g" in env {
        GraphFact(env, p.fact.name, u);
      }
    case RootN =>
      ScopeFact(Spread(env), "n", p.fact, u);
      SpreadMember(env, "n", MapV(WriteFact(MapAt(env, "n"), p.fact, u)));
    case RootE =>
      ScopeFact(Spread(env), "e", p.fact, u);
      SpreadMember(env, "e", MapV(WriteFact(MapAt(env, "e"), p.fact, u)));
    case RootFrom =>
      SideFact(Spread(env), "from", p.fact, u);
      SpreadMember(env, "e", MapV(WriteSide(MapAt(env, "e"), "from", p.fact, u)));
    case RootTo =>
      SideFact(Spread(env), "to", p.fact, u);
      SpreadMember(env, "e", MapV(WriteSide(MapAt(env, "e"), "to", p.fact, u)));
  }

  // ---- the method --------------------------------------------------------------------------------

  /** The paths a fact is written through are ones the copy may follow. */
  lemma {:induction false} RootPaths(r: Root)
    requires r != RootKB && r != RootG
    ensures RootPath(RootOf(r)) && forall n | 0 < n <= |RootOf(r)| :: CopyPath(RootOf(r)[..n])
  {
    var p := RootOf(r);
    assert p[..|p|] == p;
    assert |p| == 2 ==> p[..1] == ["e"];
  }

  lemma {:induction false} AttrPaths(r: Root)
    requires r != RootKB && r != RootG
    ensures forall n | 0 < n <= |RootOf(r)| + 1 :: CopyPath((RootOf(r) + ["attrs"])[..n])
  {
    RootPaths(r);
    var p := RootOf(r);
    var full := p + ["attrs"];
    assert full[..|full|] == full;
    forall n | 0 < n <= |full| ensures CopyPath(full[..n]) {
      assert n <= |p| ==> full[..n] == p[..n];
    }
  }

  lemma {:induction false} IdentityPaths(r: Root)
    requires r != RootKB && r != RootG
    ensures CopyPath(RootOf(r) + ["identity"] + ["attrs"])
    ensures forall n | 0 < n <= |RootOf(r)| + 1 :: CopyPath((RootOf(r) + ["identity"])[..n])
  {
    RootPaths(r);
    var p := RootOf(r);
    var short := p + ["identity"];
    assert short + ["attrs"] == p + ["identity", "attrs"];
    assert short[..|short|] == short;
    forall n | 0 < n <= |short| ensures CopyPath(short[..n]) {
      assert n <= |p| ==> short[..n] == p[..n];
    }
  }

  /** No fact of a scope is written over a copied map. */
  lemma {:induction false} FactIsNoCopy(scope: Scope, p: RequiredPath)
    requires WellFormed(scope, p) && p.root != RootKB && p.root != RootG
    ensures match p.fact
            case Field(name) => !CopyPath(RootOf(p.root) + [name])
            case Attr(name) => !CopyPath(RootOf(p.root) + ["attrs"] + [name])
            case Identity(name) =>
              !CopyPath(RootOf(p.root) + ["identity"] + [name]) && !CopyPath(RootOf(p.root) + ["identity"] + ["attrs"] + [name])
  {
    var r, name := RootOf(p.root), p.fact.name;
    match p.fact
    case Field(_) => assert (r + [name])[|r|] == name;
    case Attr(_) => AttrIsNoCopy(r, name);
    case Identity(_) =>
      IdentityIsNoCopy(r, name);
      assert r + ["identity"] + ["attrs"] == r + ["identity", "attrs"];
  }

  lemma {:induction false} AttrIsNoCopy(r: Path, name: string)
    requires RootPath(r)
    ensures !CopyPath(r + ["attrs"] + [name])
  {
    var p := r + ["attrs"] + [name];
    assert p[0] == r[0] && p[|r|] == "attrs" && p[|r| + 1] == name && |p| == |r| + 2;
    assert |r| == 2 ==> p[1] == r[1];
  }

  lemma {:induction false} IdentityIsNoCopy(r: Path, name: string)
    requires RootPath(r) && name in IDENTITY_FIELDS
    ensures !CopyPath(r + ["identity"] + [name]) && !CopyPath(r + ["identity", "attrs"] + [name])
  {
    var p, q := r + ["identity"] + [name], r + ["identity", "attrs"] + [name];
    assert p[0] == r[0] && p[|r|] == "identity" && p[|r| + 1] == name && |p| == |r| + 2;
    assert q[0] == r[0] && q[|r|] == "identity" && q[|r| + 1] == "attrs" && |q| == |r| + 3;
    assert |r| == 2 ==> p[1] == r[1] && q[1] == r[1];
  }

  lemma {:induction false} KbIsNoCopy()
    ensures !CopyPath([] + ["kb"])
  {
    assert ([] + ["kb"])[0] == "kb";
    forall r: Path | RootPath(r) ensures r + ["attrs"] != ["kb"] && r + ["identity"] != ["kb"] && r + ["identity", "attrs"] != ["kb"] {
      assert (r + ["attrs"])[0] == r[0] && (r + ["identity"])[0] == r[0] && (r + ["identity", "attrs"])[0] == r[0];
    }
  }

  lemma {:induction false} GraphPaths(name: string)
    ensures forall n | 0 < n <= 2 :: CopyPath(["g", "attrs"][..n])
    ensures !CopyPath(["g", "attrs"] + [name])
  {
    assert ["g", "attrs"][..1] == ["g"] && ["g", "attrs"][..2] == ["g", "attrs"];
    var p := ["g", "attrs"] + [name];
    assert p[0] == "g" && |p| == 3;
    forall r: Path | RootPath(r) ensures p != r + ["attrs"] && p != r + ["identity"] && p != r + ["identity", "attrs"] {
      assert (r + ["attrs"])[0] == r[0] && (r + ["identity"])[0] == r[0] && (r + ["identity", "attrs"])[0] == r[0];
    }
  }

  /** The activation as it lies on the heap, with the first n missing facts unknown. */
  ghost function ValueAfter(env: Env, missing: seq<RequiredPath>, n: nat): Env
    requires n <= |missing|
  {
    Spread(WriteUpTo(env, missing, Unknowns(|missing|), n))
  }

  lemma {:induction false} StaysGraph(scope: Scope, env: Env, missing: seq<RequiredPath>, n: nat)
    requires n <= |missing| && GraphOrNone(env) && forall p | p in missing :: WellFormed(scope, p)
    ensures GraphOrNone(WriteUpTo(env, missing, Unknowns(|missing|), n))
  {
    if n > 0 {
      StaysGraph(scope, env, missing, n - 1);
      WriteIsSet(scope, WriteUpTo(env, missing, Unknowns(|missing|), n - 1), missing[n - 1], Unknowns(|missing|)[n - 1]);
    }
  }

  lemma {:induction false} ValueStep(scope: Scope, env: Env, missing: seq<RequiredPath>, n: nat)
    requires n < |missing| && GraphOrNone(env) && forall p | p in missing :: WellFormed(scope, p)
    ensures SetFact(ValueAfter(env, missing, n), missing[n], UnknownV(-1 - n)) == ValueAfter(env, missing, n + 1)
  {
    StaysGraph(scope, env, missing, n);
    WriteIsSet(scope, WriteUpTo(env, missing, Unknowns(|missing|), n), missing[n], UnknownV(-1 - n));
  }

  /** withUnknowns: the copy stands for the activation with each missing fact unknown, and no map that existed
      before the call is written, whatever maps the activation shares. */
  method WithUnknownsOnHeap(vars: Obj, missing: seq<RequiredPath>, ghost scope: Scope, ghost env: Env, ghost h0: Heap)
    returns (sub: Obj, ghost after: Heap)
    requires Untouched(h0) && Denotes(Ref(vars), MapV(Spread(env)), h0)
    requires GraphOrNone(env) && InScope(scope, env) && forall p | p in missing :: WellFormed(scope, p)
    ensures fresh(sub) && fresh(after.Keys - h0.Keys) && (forall o | o in h0 :: o in after && after[o] == h0[o])
    ensures forall o | o in after :: o.m == after[o]
    ensures Denotes(Ref(sub), MapV(Spread(WithUnknowns(env, missing))), after)
  {
    var w := CopyAndWrite(vars, missing, scope, env, h0);
    sub, after := w.sub, h0 + w.h;
    NodeIn(w.spine, w.value, h0, w.h, []);
    HoldsDenotes(w.spine, w.value, h0, w.h);
  }

  method CopyAndWrite(vars: Obj, missing: seq<RequiredPath>, ghost scope: Scope, ghost env: Env, ghost h0: Heap) returns (w: Writer)
    requires Untouched(h0) && Denotes(Ref(vars), MapV(Spread(env)), h0)
    requires GraphOrNone(env) && forall p | p in missing :: WellFormed(scope, p)
    ensures fresh(w) && fresh(w.h.Keys) && w.h0 == h0 && w.Valid() && Untouched(h0)
    ensures w.value == ValueAfter(env, missing, |missing|)
  {
    w := new Writer(vars, Spread(env), h0, CopyPaths());
    WriteAll(w, missing, scope, env, h0);
  }

  method WriteAll(w: Writer, missing: seq<RequiredPath>, ghost scope: Scope, ghost env: Env, ghost h0: Heap)
    requires w.h0 == h0 && w.allowed == CopyPaths() && w.Valid() && Untouched(h0)
    requires GraphOrNone(env) && (forall p | p in missing :: WellFormed(scope, p)) && w.value == ValueAfter(env, missing, 0)
    modifies w`copied, w`h, w`spine, w`value, w.h.Keys
    ensures w.Valid() && Untouched(h0) && fresh(w.h.Keys - old(w.h.Keys)) && w.value == ValueAfter(env, missing, |missing|)
  {
    for i := 0 to |missing|
      invariant w.Valid() && Untouched(h0) && fresh(w.h.Keys - old(w.h.Keys))
      invariant w.value == ValueAfter(env, missing, i)
    {
      WriteNext(w, missing, i, scope, env, h0);
    }
  }

  method WriteNext(w: Writer, missing: seq<RequiredPath>, i: nat, ghost scope: Scope, ghost env: Env, ghost h0: Heap)
    requires i < |missing| && w.h0 == h0 && w.allowed == CopyPaths() && w.Valid() && Untouched(h0)
    requires GraphOrNone(env) && (forall p | p in missing :: WellFormed(scope, p)) && w.value == ValueAfter(env, missing, i)
    modifies w`copied, w`h, w`spine, w`value, w.h.Keys
    ensures w.Valid() && Untouched(h0) && fresh(w.h.Keys - old(w.h.Keys)) && w.value == ValueAfter(env, missing, i + 1)
  {
    ValueStep(scope, env, missing, i);
    w.SetUnknown(scope, missing[i], UnknownV(-1 - i));
  }

  // ---- the copy differs exactly at the missing paths ---------------------------------------------

  function ReadFact(obj: Env, f: Fact): Option<Value> {
    match f
    case Field(name) => Lookup(obj, name)
    case Attr(name) => Lookup(MapAt(obj, "attrs"), name)
    case Identity(name) => Lookup(MapAt(obj, "identity"), name)
  }

  /** The value a required path names. */
  function ReadAt(env: Env, p: RequiredPath): Option<Value> {
    match p.root
    case RootKB => Lookup(env, "kb")
    case RootG => if "g" in env && env["g"].GraphV? then Lookup(env["g"].attrs, p.fact.name) else None
    case RootN => ReadFact(MapAt(env, "n"), p.fact)
    case RootE => ReadFact(MapAt(env, "e"), p.fact)
    case RootFrom => ReadFact(MapAt(MapAt(env, "e"), "from"), p.fact)
    case RootTo => ReadFact(MapAt(MapAt(env, "e"), "to"), p.fact)
  }

  predicate PlainFact(f: Fact) { f.Field? ==> f.name !in {"attrs", "identity", "from", "to"} }

  lemma {:induction false} FactReads(obj: Env, f: Fact, g: Fact, v: Value)
    requires PlainFact(f) && PlainFact(g) && (f.Identity? ==> f.name != "attrs") && (g.Identity? ==> g.name != "attrs")
    ensures ReadFact(WriteFact(obj, f, v), g) == if f == g then Some(v) else ReadFact(obj, g)
  {}

  /** A fact of an edge is none of its endpoints. */
  lemma {:induction false} EdgeFactKeepsSides(e: Env, f: Fact, v: Value, side: string)
    requires PlainFact(f) && (side == "from" || side == "to")
    ensures MapAt(WriteFact(e, f, v), side) == MapAt(e, side)
  {}

  lemma {:induction false} SideReads(e: Env, side: string, f: Fact, g: Fact, v: Value)
    requires PlainFact(g) && (side == "from" || side == "to") && !g.Identity?
    ensures ReadFact(WriteSide(e, side, f, v), g) == ReadFact(e, g)
  {}

  predicate SamePlace(p: RequiredPath, q: RequiredPath) { p == q || (p.root == RootKB && q.root == RootKB) }

  lemma {:induction false} PlainFacts(scope: Scope, p: RequiredPath)
    requires WellFormed(scope, p) && p.root != RootKB
    ensures PlainFact(p.fact) && p.fact.name != "attrs" && (p.root == RootE ==> !p.fact.Identity?)
  {}

  /** A write changes what its own path reads, and no other. */
  lemma {:induction false} WriteReads(scope: Scope, env: Env, p: RequiredPath, q: RequiredPath, v: Value)
    requires WellFormed(scope, p) && WellFormed(scope, q) && (p.root == RootG ==> "g" in env && env["g"].GraphV?)
    ensures ReadAt(Write(env, p, v), q) == if SamePlace(p, q) then Some(v) else ReadAt(env, q)
  {
    if p.root != RootKB && q.root != RootKB {
      PlainFacts(scope, p);
      PlainFacts(scope, q);
      if p.root == RootN && q.root == RootN {
        FactReads(MapAt(env, "n"), p.fact, q.fact, v);
      } else if p.root != RootG && q.root != RootG && p.root != RootN && q.root != RootN {
        EdgeWriteReads(env, p, q, v);
      }
    }
  }

  lemma {:induction false} EdgeWriteReads(env: Env, p: RequiredPath, q: RequiredPath, v: Value)
    requires p.root == RootE || p.root == RootFrom || p.root == RootTo
    requires q.root == RootE || q.root == RootFrom || q.root == RootTo
    requires PlainFact(p.fact) && PlainFact(q.fact) && p.fact.name != "attrs" && q.fact.name != "attrs"
    requires (p.root == RootE ==> !p.fact.Identity?) && (q.root == RootE ==> !q.fact.Identity?)
    ensures ReadAt(Write(env, p, v), q) == if p == q then Some(v) else ReadAt(env, q)
  {
    var e := MapAt(env, "e");
    if p.root == RootE {
      if q.root == RootE {
        FactReads(e, p.fact, q.fact, v);
      } else {
        EdgeFactKeepsSides(e, p.fact, v, "from");
        EdgeFactKeepsSides(e, p.fact, v, "to");
      }
    } else {
      var side := if p.root == RootFrom then "from" else "to";
      if q.root == RootE {
        SideReads(e, side, p.fact, q.fact, v);
      } else if q.root == p.root {
        FactReads(MapAt(e, side), p.fact, q.fact, v);
      }
    }
  }

  /** After withUnknowns each missing path reads an unknown, and every other fact reads as before. */
  lemma {:induction false} UnknownsExactly(scope: Scope, env: Env, missing: seq<RequiredPath>, n: nat, q: RequiredPath)
    requires n <= |missing| && WellFormed(scope, q) && GraphOrNone(env) && forall p | p in missing :: WellFormed(scope, p)
    requires forall p | p in missing && p.root == RootG :: "g" in env
    ensures var after := WriteUpTo(env, missing, Unknowns(|missing|), n);
            ("g" in env ==> "g" in after && after["g"].GraphV?)
            && if exists i :: 0 <= i < n && SamePlace(missing[i], q)
               then ReadAt(after, q).Some? && ReadAt(after, q).value.UnknownV?
               else ReadAt(after, q) == ReadAt(env, q)
  {
    if n > 0 {
      UnknownsExactly(scope, env, missing, n - 1, q);
      var before := WriteUpTo(env, missing, Unknowns(|missing|), n - 1);
      WriteReads(scope, before, missing[n - 1], q, Unknowns(|missing|)[n - 1]);
    }
  }
}
