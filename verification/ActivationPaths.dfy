/** What withUnknowns changes of an activation, path by path (rules/engine.go:400-493): the places where the
    missing facts are written, and nothing else. */
module ActivationPaths {
  import opened Options
  import opened Cel
  import opened Coverage
  import opened Guards
  import opened Activations

  /** What a path of members reads. */
  function ReadPath(v: Env, q: Path): Option<Value>
    requires q != []
    decreases |q|
  {
    if |q| == 1 then Lookup(v, q[0])
    else if q[0] in v && v[q[0]].MapV? then ReadPath(v[q[0]].m, q[1..])
    else None
  }

  /** Neither path leads through the other. */
  predicate Separate(q: Path, w: Path) { !(q <= w) && !(w <= q) }

  /** Setting a member changes what no other path reads, and creates no more than the maps it lies in. */
  lemma {:induction false} SetInReads(v: Env, path: Path, f: string, u: Value, q: Path)
    requires q != []
    ensures q == path + [f] ==> ReadPath(SetIn(v, path, f, u), q) == Some(u)
    ensures Separate(q, path + [f]) ==> ReadPath(SetIn(v, path, f, u), q) == ReadPath(v, q)
    decreases |path|
  {
    if path == [] {
      assert q[0] == f ==> [f] <= q;
    } else {
      var k, rest := path[0], path[1..];
      assert path + [f] == [k] + (rest + [f]);
      if q[0] == k {
        assert q == [k] + q[1..];
        if |q| > 1 {
          assert Separate(q, path + [f]) ==> Separate(q[1..], rest + [f]);
          SetInReads(MapAt(v, k), rest, f, u, q[1..]);
          EmptyReads(q[1..]);
        } else {
          assert q <= path + [f];
        }
      }
    }
  }

  lemma EmptyReads(q: Path)
    requires q != []
    ensures ReadPath(map[], q) == None
  {}

  // ---- where a fact is written -------------------------------------------------------------------

  function WritePaths(p: RequiredPath): seq<Path> {
    match p.root
    case RootKB => [[] + ["kb"]]
    case RootG => [["g", "attrs"] + [p.fact.name]]
    case _ =>
      match p.fact
      case Field(name) => [RootOf(p.root) + [name]]
      case Attr(name) => [RootOf(p.root) + ["attrs"] + [name]]
      case Identity(name) => [RootOf(p.root) + ["identity"] + [name], RootOf(p.root) + ["identity", "attrs"] + [name]]
  }

  predicate SeparateAll(q: Path, ws: seq<Path>) { forall w | w in ws :: Separate(q, w) }

  /** The place is in a map that is copied, below copies, and is none of these maps. */
  ghost predicate EndsInCopies(w: Path) {
    !CopyPath(w) && forall n | 0 < n < |w| :: CopyPath(w[..n])
  }

  lemma {:induction false} PlaceEnds(front: Path, name: string)
    requires !CopyPath(front + [name]) && forall n | 0 < n <= |front| :: CopyPath(front[..n])
    ensures EndsInCopies(front + [name])
  {
    var w := front + [name];
    forall n | 0 < n < |w| ensures CopyPath(w[..n]) {
      assert w[..n] == front[..n];
    }
  }

  lemma {:induction false} WritesEnd(scope: Scope, p: RequiredPath, w: Path)
    requires WellFormed(scope, p) && w in WritePaths(p)
    ensures EndsInCopies(w)
  {
    match p.root
    case RootKB =>
      KbIsNoCopy();
      PlaceEnds([], "kb");
    case RootG =>
      GraphPaths(p.fact.name);
      PlaceEnds(["g", "attrs"], p.fact.name);
    case _ => ScopeWritesEnd(scope, p, w);
  }

  lemma {:induction false} ScopeWritesEnd(scope: Scope, p: RequiredPath, w: Path)
    requires WellFormed(scope, p) && w in WritePaths(p) && p.root != RootKB && p.root != RootG
    ensures EndsInCopies(w)
  {
    var r, name := RootOf(p.root), p.fact.name;
    match p.fact
    case Field(_) =>
      PlainFieldPaths(scope, p);
      PlaceEnds(r, name);
    case Attr(_) =>
      AttrFactPaths(scope, p);
      PlaceEnds(r + ["attrs"], name);
    case Identity(_) => IdentityWritesEnd(scope, p, w);
  }

  lemma {:induction false} IdentityWritesEnd(scope: Scope, p: RequiredPath, w: Path)
    requires WellFormed(scope, p) && w in WritePaths(p) && p.root != RootKB && p.root != RootG && p.fact.Identity?
    ensures EndsInCopies(w)
  {
    var ri, name := RootOf(p.root) + ["identity"], p.fact.name;
    IdentityFactPaths(scope, p);
    var ria := ri + ["attrs"];
    forall n | 0 < n <= |ria| ensures CopyPath(ria[..n]) {
      assert n <= |ri| ==> ria[..n] == ri[..n];
      assert n == |ria| ==> ria[..n] == ria;
    }
    PlaceEnds(ri, name);
    PlaceEnds(ria, name);
  }

  /** Two places are one or apart. */
  lemma {:induction false} EndsApart(w: Path, x: Path)
    requires EndsInCopies(w) && EndsInCopies(x) && w != [] && x != []
    ensures w == x || Separate(w, x)
  {
    assert w <= x ==> x[..|w|] == w && (|w| == |x| ==> w == x);
    assert x <= w ==> w[..|x|] == x && (|w| == |x| ==> w == x);
  }

  // ---- what a write reads ------------------------------------------------------------------------

  lemma {:induction false} SetFactReads(v: Env, p: RequiredPath, u: Value, q: Path)
    requires q != [] && (p.root != RootKB && p.root != RootG && p.fact.Identity? ==> p.fact.name != "attrs")
    ensures q in WritePaths(p) && (p.root == RootG ==> "g" in v) ==> ReadPath(SetFact(v, p, u), q) == Some(u)
    ensures SeparateAll(q, WritePaths(p)) ==> ReadPath(SetFact(v, p, u), q) == ReadPath(v, q)
  {
    match p.root
    case RootKB => SetInReads(v, [], "kb", u, q);
    case RootG => SetInReads(v, ["g", "attrs"], p.fact.name, u, q);
    case _ => ScopeFactReads(v, p, u, q);
  }

  lemma {:induction false} ScopeFactReads(v: Env, p: RequiredPath, u: Value, q: Path)
    requires q != [] && p.root != RootKB && p.root != RootG && (p.fact.Identity? ==> p.fact.name != "attrs")
    ensures q in WritePaths(p) ==> ReadPath(SetFact(v, p, u), q) == Some(u)
    ensures SeparateAll(q, WritePaths(p)) ==> ReadPath(SetFact(v, p, u), q) == ReadPath(v, q)
  {
    if p.fact.Identity? {
      IdentityReads(v, RootOf(p.root), p.fact.name, u, q);
    } else {
      PlainReads(v, p, u, q);
    }
  }

  lemma {:induction false} PlainReads(v: Env, p: RequiredPath, u: Value, q: Path)
    requires q != [] && p.root != RootKB && p.root != RootG && !p.fact.Identity?
    ensures q in WritePaths(p) ==> ReadPath(SetFact(v, p, u), q) == Some(u)
    ensures SeparateAll(q, WritePaths(p)) ==> ReadPath(SetFact(v, p, u), q) == ReadPath(v, q)
  {
    var front := if p.fact.Field? then RootOf(p.root) else RootOf(p.root) + ["attrs"];
    assert WritePaths(p) == [front + [p.fact.name]];
    assert SetFact(v, p, u) == SetIn(v, front, p.fact.name, u);
    SetInReads(v, front, p.fact.name, u, q);
  }

  lemma {:induction false} IdentityReads(v: Env, r: Path, name: string, u: Value, q: Path)
    requires q != [] && name != "attrs"
    ensures var a, b := r + ["identity"], r + ["identity", "attrs"];
            var after := SetIn(SetIn(v, a, name, u), b, name, u);
            (q == a + [name] || q == b + [name] ==> ReadPath(after, q) == Some(u))
            && (Separate(q, a + [name]) && Separate(q, b + [name]) ==> ReadPath(after, q) == ReadPath(v, q))
  {
    var a, b := r + ["identity"], r + ["identity", "attrs"];
    SetInReads(v, a, name, u, q);
    SetInReads(SetIn(v, a, name, u), b, name, u, q);
    assert (a + [name])[|r| + 1] == name && (b + [name])[|r| + 1] == "attrs";
    assert Separate(a + [name], b + [name]);
  }

  // ---- the whole copy ----------------------------------------------------------------------------

  predicate WrittenBy(missing: seq<RequiredPath>, n: nat, q: Path) {
    exists i :: 0 <= i < n && i < |missing| && q in WritePaths(missing[i])
  }

  predicate ApartFrom(missing: seq<RequiredPath>, n: nat, q: Path) {
    forall i | 0 <= i < n && i < |missing| :: SeparateAll(q, WritePaths(missing[i]))
  }

  lemma {:induction false} OneMorePath(scope: Scope, env: Env, missing: seq<RequiredPath>, n: nat, q: Path)
    requires n < |missing| && q != [] && GraphOrNone(env) && forall p | p in missing :: WellFormed(scope, p)
    requires forall p | p in missing && p.root == RootG :: "g" in env
    ensures q in WritePaths(missing[n]) ==> ReadPath(ValueAfter(env, missing, n + 1), q) == Some(UnknownV(-1 - n))
    ensures SeparateAll(q, WritePaths(missing[n])) ==>
              ReadPath(ValueAfter(env, missing, n + 1), q) == ReadPath(ValueAfter(env, missing, n), q)
  {
    ValueStep(scope, env, missing, n);
    assert missing[n] in missing;
    if missing[n].root == RootG {
      KeepsGraph(scope, env, missing, n);
    }
    SetFactReads(ValueAfter(env, missing, n), missing[n], UnknownV(-1 - n), q);
  }

  lemma {:induction false} KeepsGraph(scope: Scope, env: Env, missing: seq<RequiredPath>, n: nat)
    requires n <= |missing| && "g" in env && GraphOrNone(env) && forall p | p in missing :: WellFormed(scope, p)
    ensures "g" in ValueAfter(env, missing, n)
  {
    if n > 0 {
      KeepsGraph(scope, env, missing, n - 1);
      ValueStep(scope, env, missing, n - 1);
      assert missing[n - 1] in missing;
      SetKeepsKeys(ValueAfter(env, missing, n - 1), missing[n - 1], UnknownV(-1 - (n - 1)));
    }
  }

  lemma {:induction false} SetKeepsKeys(v: Env, p: RequiredPath, u: Value)
    ensures v.Keys <= SetFact(v, p, u).Keys
  {}

  /** The copy differs from the activation exactly at the missing facts: each place where one is written
      reads an unknown, and every path of members that leads through no such place, or ends above none,
      reads as before. */
  lemma {:induction false} EveryPathReads(scope: Scope, env: Env, missing: seq<RequiredPath>, n: nat, q: Path)
    requires n <= |missing| && q != [] && GraphOrNone(env) && forall p | p in missing :: WellFormed(scope, p)
    requires forall p | p in missing && p.root == RootG :: "g" in env
    ensures WrittenBy(missing, n, q) ==> Unknown(ReadPath(ValueAfter(env, missing, n), q))
    ensures ApartFrom(missing, n, q) ==> ReadPath(ValueAfter(env, missing, n), q) == ReadPath(Spread(env), q)
  {
    if n > 0 {
      EveryPathReads(scope, env, missing, n - 1, q);
      OneMorePath(scope, env, missing, n - 1, q);
      PathStep(scope, missing, n - 1, q, ReadPath(Spread(env), q), ReadPath(ValueAfter(env, missing, n - 1), q),
               ReadPath(ValueAfter(env, missing, n), q));
    }
  }

  predicate Unknown(v: Option<Value>) { v.Some? && v.value.UnknownV? }

  /** What a path read at first, before one more write and after it. */
  lemma {:induction false} PathStep(scope: Scope, missing: seq<RequiredPath>, n: nat, q: Path,
                                    first: Option<Value>, was: Option<Value>, now: Option<Value>)
    requires n < |missing| && forall p | p in missing :: WellFormed(scope, p)
    requires (WrittenBy(missing, n, q) ==> Unknown(was)) && (ApartFrom(missing, n, q) ==> was == first)
    requires (q in WritePaths(missing[n]) ==> Unknown(now)) && (SeparateAll(q, WritePaths(missing[n])) ==> now == was)
    ensures (WrittenBy(missing, n + 1, q) ==> Unknown(now)) && (ApartFrom(missing, n + 1, q) ==> now == first)
  {
    if WrittenBy(missing, n + 1, q) && q !in WritePaths(missing[n]) {
      var i :| 0 <= i < n && q in WritePaths(missing[i]);
      PlacesApart(scope, missing, i, n, q);
    }
  }

  lemma {:induction false} PlacesApart(scope: Scope, missing: seq<RequiredPath>, i: nat, j: nat, q: Path)
    requires i < |missing| && j < |missing| && forall p | p in missing :: WellFormed(scope, p)
    requires q in WritePaths(missing[i]) && q !in WritePaths(missing[j])
    ensures SeparateAll(q, WritePaths(missing[j]))
  {
    WritesEnd(scope, missing[i], q);
    forall w | w in WritePaths(missing[j]) ensures Separate(q, w) {
      WritesEnd(scope, missing[j], w);
      EndsApart(q, w);
    }
  }
}
