/** The coverage pass of one rule (rules/engine.go): which elements a rule decided although a required
    fact is undeclared, found by evaluating its condition again with the missing facts unknown. */
module Coverage {
  import opened Options
  import opened Text
  import opened Cel
  import opened Guards

  // ---- required facts ----------------------------------------------------------------------------

  datatype Root = RootN | RootE | RootFrom | RootTo | RootG | RootKB

  datatype Fact = Field(name: string) | Attr(name: string) | Identity(name: string)

  datatype RequiredPath = RequiredPath(root: Root, fact: Fact)

  const NODE_FIELDS: set<string> := {"zone", "layer"}

  const EDGE_FIELDS: set<string> := {"auth", "encryption", "data_class", "protocol", "label"}

  const IDENTITY_FIELDS: set<string> :=
    {"name", "kind", "ref", "issuer", "credential_type", "credential_ttl", "rotation_days", "sponsor", "owner", "blueprint",
     "registry", "federation", "trust_domain"}

  /** What parseRequired accepts for a scope; no attribute of the schema is named attrs. */
  predicate WellFormed(scope: Scope, p: RequiredPath) {
    (p.fact.Attr? ==> p.fact.name != "attrs")
    && match p.root
       case RootKB => true
       case RootG => p.fact.Attr?
       case RootN => scope.NodeScope? && NodeFact(p.fact)
       case RootE => scope.EdgeScope? && ((p.fact.Field? && p.fact.name in EDGE_FIELDS) || p.fact.Attr?)
       case RootFrom => scope.EdgeScope? && NodeFact(p.fact)
       case RootTo => scope.EdgeScope? && NodeFact(p.fact)
  }

  predicate NodeFact(f: Fact) {
    match f
    case Field(name) => name in NODE_FIELDS
    case Attr(_) => true
    case Identity(name) => name in IDENTITY_FIELDS
  }

  /** The map at a key, empty when there is none. */
  function MapAt(m: map<string, Value>, k: string): map<string, Value> {
    if k in m && m[k].MapV? then m[k].m else map[]
  }

  function ScopeMap(root: Root, env: Env): Option<map<string, Value>> {
    match root
    case RootN => if "n" in env && env["n"].MapV? then Some(env["n"].m) else None
    case RootE => if "e" in env && env["e"].MapV? then Some(env["e"].m) else None
    case RootFrom => EndpointMap("from", env)
    case RootTo => EndpointMap("to", env)
    case _ => None
  }

  function EndpointMap(side: string, env: Env): Option<map<string, Value>> {
    var e := MapAt(env, "e");
    if side in e && e[side].MapV? then Some(e[side].m) else None
  }

  /** Absent, null, blank and "unknown" are not declarations; false, 0 and an empty list are. */
  predicate ValueDeclared(v: Option<Value>) {
    match v
    case None => false
    case Some(NullV) => false
    case Some(StrV(s)) => Trim(s) != "" && Lower(Trim(s)) != "unknown"
    case _ => true
  }

  function Lookup(m: map<string, Value>, k: string): Option<Value> {
    if k in m then Some(m[k]) else None
  }

  /** An importer's required placeholder: an empty scopes list on an element imported as a whole. */
  predicate ImportedPlaceholder(field: string, v: Value, obj: map<string, Value>, env: Env) {
    field == "scopes" && v == ListV([])
    && "g" in env && env["g"].GraphV? && env["g"].prov.MapV?
    && Lookup(MapAt(MapAt(env["g"].prov.m, "elements"), ElementId(obj)), "kind") == Some(StrV("imported"))
  }

  predicate PathDeclared(p: RequiredPath, env: Env) {
    match p.root
    case RootKB => Lookup(MapAt(env, "kb"), "available") == Some(BoolV(true))
    case RootG => "g" in env && env["g"].GraphV? && ValueDeclared(Lookup(env["g"].attrs, p.fact.name))
    case _ =>
      var obj := ScopeMap(p.root, env);
      obj.Some?
      && match p.fact
         case Identity(f) => ValueDeclared(Lookup(MapAt(MapAt(obj.value, "identity"), "attrs"), f))
         case Attr(f) =>
           var v := Lookup(MapAt(obj.value, "attrs"), f);
           v.Some? && !ImportedPlaceholder(f, v.value, obj.value, env) && ValueDeclared(v)
         case Field(f) => ValueDeclared(Lookup(obj.value, f))
  }

  function UndeclaredPaths(paths: seq<RequiredPath>, env: Env): (r: seq<RequiredPath>)
    ensures forall p :: p in r <==> p in paths && !PathDeclared(p, env)
  {
    if paths == [] then []
    else (if PathDeclared(paths[0], env) then [] else [paths[0]]) + UndeclaredPaths(paths[1..], env)
  }

  // ---- writing facts into an activation ----------------------------------------------------------

  /** Sets one fact of an element; an identity fact reads the same at the top level and under attrs. */
  function WriteFact(obj: map<string, Value>, f: Fact, v: Value): map<string, Value> {
    match f
    case Field(name) => obj[name := v]
    case Attr(name) => obj["attrs" := MapV(MapAt(obj, "attrs")[name := v])]
    case Identity(name) =>
      var identity := MapAt(obj, "identity");
      obj["identity" := MapV(identity[name := v]["attrs" := MapV(MapAt(identity, "attrs")[name := v])])]
  }

  function WriteSide(e: map<string, Value>, side: string, f: Fact, v: Value): map<string, Value> {
    e[side := MapV(WriteFact(MapAt(e, side), f, v))]
  }

  function WriteEndpoint(env: Env, side: string, f: Fact, v: Value): Env {
    env["e" := MapV(WriteSide(MapAt(env, "e"), side, f, v))]
  }

  function Write(env: Env, p: RequiredPath, v: Value): Env {
    match p.root
    case RootKB => env["kb" := v]
    case RootG => if "g" in env && env["g"].GraphV? then env["g" := env["g"].(attrs := env["g"].attrs[p.fact.name := v])] else env
    case RootN => env["n" := MapV(WriteFact(MapAt(env, "n"), p.fact, v))]
    case RootE => env["e" := MapV(WriteFact(MapAt(env, "e"), p.fact, v))]
    case RootFrom => WriteEndpoint(env, "from", p.fact, v)
    case RootTo => WriteEndpoint(env, "to", p.fact, v)
  }

  /** The activation with the first n missing facts set to the values. */
  function WriteUpTo(env: Env, paths: seq<RequiredPath>, vals: seq<Value>, n: nat): Env
    requires n <= |paths| == |vals|
  {
    if n == 0 then env else Write(WriteUpTo(env, paths, vals, n - 1), paths[n - 1], vals[n - 1])
  }

  function WithFacts(env: Env, paths: seq<RequiredPath>, vals: seq<Value>): Env
    requires |paths| == |vals|
  {
    WriteUpTo(env, paths, vals, |paths|)
  }

  function Unknowns(n: nat): (r: seq<Value>)
    ensures |r| == n && forall i | 0 <= i < n :: r[i] == UnknownV(-1 - i)
  {
    seq(n, i => UnknownV(-1 - i))
  }

  /** withUnknowns: each missing fact set to an unknown. */
  function WithUnknowns(env: Env, missing: seq<RequiredPath>): Env {
    WithFacts(env, missing, Unknowns(|missing|))
  }

  /** dependsOn: only a concrete false counts as not depending on the missing facts. */
  predicate DependsOn(cond: Expr, env: Env, missing: seq<RequiredPath>, helpers: Helpers) {
    Eval(cond, WithUnknowns(env, missing), helpers) != BoolV(false)
  }

  // ---- soundness ---------------------------------------------------------------------------------

  predicate Known(m: map<string, Value>, k: string) {
    k in m ==> !m[k].UnknownV?
  }

  /** The objects facts are written into are never unknown themselves. */
  predicate Shaped(env: Env) {
    Known(env, "n") && Known(env, "e") && Known(env, "g")
    && Known(MapAt(env, "n"), "identity")
    && Known(MapAt(env, "e"), "from") && Known(MapAt(env, "e"), "to")
    && Known(MapAt(MapAt(env, "e"), "from"), "identity") && Known(MapAt(MapAt(env, "e"), "to"), "identity")
  }

  lemma {:induction false} MapAtRefines(m: map<string, Value>, m': map<string, Value>, k: string)
    requires m.Keys == m'.Keys && (k in m ==> Refines(m[k], m'[k])) && Known(m, k)
    ensures RefinesMap(MapAt(m, k), MapAt(m', k))
  {}

  lemma {:induction false} SetRefines(m: map<string, Value>, m': map<string, Value>, k: string, v: Value, w: Value)
    requires RefinesMap(m, m') && Refines(v, w) && (k == "attrs" ==> !v.UnknownV?)
    ensures RefinesMap(m[k := v], m'[k := w])
  {}

  lemma {:induction false} MapRefines(m: map<string, Value>, m': map<string, Value>)
    requires RefinesMap(m, m')
    ensures Refines(MapV(m), MapV(m'))
  {}

  lemma {:induction false} WriteFactRefines(o: map<string, Value>, o': map<string, Value>, f: Fact, v: Value, w: Value)
    requires RefinesMap(o, o') && Refines(v, w) && f.name != "attrs" && (f.Identity? ==> Known(o, "identity"))
    ensures RefinesMap(WriteFact(o, f, v), WriteFact(o', f, w))
  {
    match f
    case Field(name) => SetRefines(o, o', name, v, w);
    case Attr(name) =>
      MapAtRefines(o, o', "attrs");
      SetRefines(MapAt(o, "attrs"), MapAt(o', "attrs"), name, v, w);
      MapRefines(MapAt(o, "attrs")[name := v], MapAt(o', "attrs")[name := w]);
      SetRefines(o, o', "attrs", MapV(MapAt(o, "attrs")[name := v]), MapV(MapAt(o', "attrs")[name := w]));
    case Identity(name) =>
      MapAtRefines(o, o', "identity");
      var i, i' := MapAt(o, "identity"), MapAt(o', "identity");
      MapAtRefines(i, i', "attrs");
      SetRefines(MapAt(i, "attrs"), MapAt(i', "attrs"), name, v, w);
      MapRefines(MapAt(i, "attrs")[name := v], MapAt(i', "attrs")[name := w]);
      SetRefines(i, i', name, v, w);
      SetRefines(i[name := v], i'[name := w], "attrs", MapV(MapAt(i, "attrs")[name := v]), MapV(MapAt(i', "attrs")[name := w]));
      WriteIdentityRefines(o, o', i, i', name, v, w);
  }

  lemma {:induction false} WriteIdentityRefines(o: map<string, Value>, o': map<string, Value>, i: map<string, Value>,
                                                i': map<string, Value>, name: string, v: Value, w: Value)
    requires RefinesMap(o, o')
    requires RefinesMap(i[name := v]["attrs" := MapV(MapAt(i, "attrs")[name := v])],
                        i'[name := w]["attrs" := MapV(MapAt(i', "attrs")[name := w])])
    ensures RefinesMap(o["identity" := MapV(i[name := v]["attrs" := MapV(MapAt(i, "attrs")[name := v])])],
                       o'["identity" := MapV(i'[name := w]["attrs" := MapV(MapAt(i', "attrs")[name := w])])])
  {
    var x, y := i[name := v]["attrs" := MapV(MapAt(i, "attrs")[name := v])], i'[name := w]["attrs" := MapV(MapAt(i', "attrs")[name := w])];
    MapRefines(x, y);
    SetRefines(o, o', "identity", MapV(x), MapV(y));
  }

  lemma {:induction false} EnvMapRefines(p: Env, c: Env, k: string, x: map<string, Value>, y: map<string, Value>)
    requires RefinesEnv(p, c) && RefinesMap(x, y)
    ensures RefinesEnv(p[k := MapV(x)], c[k := MapV(y)])
  {
    MapRefines(x, y);
  }

  /** Replacing one member map by a refined one. */
  lemma {:induction false} ChildRefines(m: map<string, Value>, m': map<string, Value>, k: string,
                                        x: map<string, Value>, y: map<string, Value>)
    requires RefinesMap(m, m') && RefinesMap(x, y)
    ensures RefinesMap(m[k := MapV(x)], m'[k := MapV(y)])
  {
    MapRefines(x, y);
    SetRefines(m, m', k, MapV(x), MapV(y));
  }

  lemma {:induction false} WriteEndpointRefines(p: Env, c: Env, side: string, f: Fact, v: Value, w: Value)
    requires RefinesEnv(p, c) && Shaped(p) && Refines(v, w) && f.name != "attrs" && (side == "from" || side == "to")
    ensures RefinesEnv(WriteEndpoint(p, side, f, v), WriteEndpoint(c, side, f, w))
  {
    MapAtRefines(p, c, "e");
    EndpointRefines(MapAt(p, "e"), MapAt(c, "e"), side, f, v, w);
    EnvMapRefines(p, c, "e", WriteSide(MapAt(p, "e"), side, f, v), WriteSide(MapAt(c, "e"), side, f, w));
  }

  lemma {:induction false} EndpointRefines(e: map<string, Value>, e': map<string, Value>, side: string, f: Fact, v: Value, w: Value)
    requires RefinesMap(e, e') && Known(e, side) && Known(MapAt(e, side), "identity") && Refines(v, w) && f.name != "attrs"
    ensures RefinesMap(WriteSide(e, side, f, v), WriteSide(e', side, f, w))
  {
    MapAtRefines(e, e', side);
    WriteFactRefines(MapAt(e, side), MapAt(e', side), f, v, w);
    ChildRefines(e, e', side, WriteFact(MapAt(e, side), f, v), WriteFact(MapAt(e', side), f, w));
  }

  lemma {:induction false} WriteScopeRefines(p: Env, c: Env, k: string, f: Fact, v: Value, w: Value)
    requires RefinesEnv(p, c) && Known(p, k) && Refines(v, w) && f.name != "attrs"
    requires f.Identity? ==> Known(MapAt(p, k), "identity")
    ensures RefinesEnv(p[k := MapV(WriteFact(MapAt(p, k), f, v))], c[k := MapV(WriteFact(MapAt(c, k), f, w))])
  {
    MapAtRefines(p, c, k);
    WriteFactRefines(MapAt(p, k), MapAt(c, k), f, v, w);
    EnvMapRefines(p, c, k, WriteFact(MapAt(p, k), f, v), WriteFact(MapAt(c, k), f, w));
  }

  lemma {:induction false} WriteGraphRefines(p: Env, c: Env, name: string, v: Value, w: Value)
    requires RefinesEnv(p, c) && Known(p, "g") && Refines(v, w) && name != "attrs"
    ensures RefinesEnv(Write(p, RequiredPath(RootG, Attr(name)), v), Write(c, RequiredPath(RootG, Attr(name)), w))
  {
    if "g" in p {
      assert Refines(p["g"], c["g"]);
      if p["g"].GraphV? {
        SetRefines(p["g"].attrs, c["g"].attrs, name, v, w);
        assert Refines(p["g"].(attrs := p["g"].attrs[name := v]), c["g"].(attrs := c["g"].attrs[name := w]));
      }
    }
  }

  lemma {:induction false} WriteRefines(scope: Scope, p: Env, c: Env, path: RequiredPath, v: Value, w: Value)
    requires RefinesEnv(p, c) && Shaped(p) && Refines(v, w) && WellFormed(scope, path)
    ensures RefinesEnv(Write(p, path, v), Write(c, path, w))
  {
    if path.root != RootKB {
      FactIsNotAttrs(scope, path);
    }
    match path.root
    case RootKB =>
    case RootG => WriteGraphRefines(p, c, path.fact.name, v, w);
    case RootN => WriteScopeRefines(p, c, "n", path.fact, v, w);
    case RootE => WriteScopeRefines(p, c, "e", path.fact, v, w);
    case RootFrom => WriteEndpointRefines(p, c, "from", path.fact, v, w);
    case RootTo => WriteEndpointRefines(p, c, "to", path.fact, v, w);
  }

  lemma {:induction false} FactIsNotAttrs(scope: Scope, p: RequiredPath)
    requires WellFormed(scope, p) && p.root != RootKB
    ensures p.fact.name != "attrs"
  {}

  lemma {:induction false} WriteKeepsShape(scope: Scope, p: Env, path: RequiredPath, v: Value)
    requires Shaped(p) && WellFormed(scope, path)
    ensures Shaped(Write(p, path, v))
  {}

  predicate ConcreteEnv(env: map<string, Value>) {
    forall k | k in env :: Concrete(env[k])
  }

  lemma {:induction false} ConcreteMapAt(m: map<string, Value>, k: string)
    requires ConcreteEnv(m)
    ensures ConcreteEnv(MapAt(m, k)) && Known(m, k)
  {}

  lemma {:induction false} ConcreteIsShaped(env: Env)
    requires ConcreteEnv(env)
    ensures Shaped(env) && RefinesEnv(env, env)
  {
    forall k | k in env ensures Refines(env[k], env[k]) {
      ConcreteRefines(env[k]);
    }
    ConcreteMapAt(env, "n");
    ConcreteMapAt(env, "e");
    ConcreteMapAt(env, "g");
    ConcreteMapAt(MapAt(env, "n"), "identity");
    ConcreteMapAt(MapAt(env, "e"), "from");
    ConcreteMapAt(MapAt(env, "e"), "to");
    ConcreteMapAt(MapAt(MapAt(env, "e"), "from"), "identity");
    ConcreteMapAt(MapAt(MapAt(env, "e"), "to"), "identity");
  }

  lemma {:induction false} WithFactsRefines(scope: Scope, env: Env, paths: seq<RequiredPath>, vals: seq<Value>, n: nat)
    requires ConcreteEnv(env) && n <= |paths| == |vals| && forall p | p in paths :: WellFormed(scope, p)
    ensures Shaped(WriteUpTo(env, paths, Unknowns(|paths|), n))
    ensures RefinesEnv(WriteUpTo(env, paths, Unknowns(|paths|), n), WriteUpTo(env, paths, vals, n))
  {
    if n == 0 {
      ConcreteIsShaped(env);
    } else {
      WithFactsRefines(scope, env, paths, vals, n - 1);
      var p, c := WriteUpTo(env, paths, Unknowns(|paths|), n - 1), WriteUpTo(env, paths, vals, n - 1);
      WriteRefines(scope, p, c, paths[n - 1], Unknowns(|paths|)[n - 1], vals[n - 1]);
      WriteKeepsShape(scope, p, paths[n - 1], Unknowns(|paths|)[n - 1]);
    }
  }

  /** When the outcome does not depend on the missing facts, the condition is false whatever values they
      take on the scope variable. */
  lemma {:induction false} IndependentIsFalse(scope: Scope, cond: Expr, env: Env, missing: seq<RequiredPath>, vals: seq<Value>,
                                              helpers: Helpers)
    requires ConcreteEnv(env) && Literate(cond) && Monotone(helpers) && |vals| == |missing|
    requires forall p | p in missing :: WellFormed(scope, p)
    requires !DependsOn(cond, env, missing, helpers)
    ensures Eval(cond, WithFacts(env, missing, vals), helpers) == BoolV(false)
  {
    WithFactsRefines(scope, env, missing, vals, |missing|);
    EvalRefines(cond, WithUnknowns(env, missing), WithFacts(env, missing, vals), helpers);
  }
}
