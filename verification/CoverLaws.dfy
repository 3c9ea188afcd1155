/** Coverage in terms of what the model holds at the required paths (rules/engine.go). */
module CoverLaws {
  import opened Options
  import opened TextLaws
  import opened Cel
  import opened Guards
  import opened Coverage
  import opened CoverRules
  import opened ActivationPaths

  // ---- what is held at a path --------------------------------------------------------------------

  /** Where the declaration of a fact of an element stands, below it. */
  function Place(f: Fact): seq<string> {
    match f
    case Field(name) => [name]
    case Attr(name) => ["attrs", name]
    case Identity(name) => ["identity", "attrs", name]
  }

  /** The element a root names, as a path of the activation. */
  function Element(r: Root): seq<string> {
    match r
    case RootN => ["n"]
    case RootE => ["e"]
    case RootFrom => ["e", "from"]
    case RootTo => ["e", "to"]
    case _ => []
  }

  /** Null, blank text, and the word "unknown" say nothing; false, 0 and an empty list say something. */
  ghost predicate SaysNothing(v: Value) {
    v == NullV || (v.StrV? && (Blank(v.s) || SaysUnknown(v.s)))
  }

  /** The empty scopes list of an element that was imported. */
  predicate IsPlaceholder(p: RequiredPath, v: Value, env: Env) {
    p.fact == Attr("scopes") && v == ListV([])
    && "g" in env && env["g"].GraphV? && env["g"].prov.MapV?
    && ReadPath(env["g"].prov.m, ["elements", IdText(ReadPath(env, Element(p.root) + ["id"])), "kind"]) == Some(StrV("imported"))
  }

  function IdText(v: Option<Value>): string {
    if v.Some? && v.value.StrV? then v.value.s else ""
  }

  /** The model holds nothing at the path, or nothing that says anything. */
  ghost predicate Missing(p: RequiredPath, env: Env) {
    match p.root
    case RootKB => ReadPath(env, ["kb", "available"]) != Some(BoolV(true))
    case RootG => !("g" in env && env["g"].GraphV? && p.fact.name in env["g"].attrs && !SaysNothing(env["g"].attrs[p.fact.name]))
    case _ =>
      var v := ReadPath(env, Element(p.root) + Place(p.fact));
      v.None? || SaysNothing(v.value) || IsPlaceholder(p, v.value, env)
  }

  /** The required paths that are missing, in the order of the requirement. */
  ghost function MissingPaths(paths: seq<RequiredPath>, env: Env): seq<RequiredPath> {
    if paths == [] then []
    else (if Missing(paths[0], env) then [paths[0]] else []) + MissingPaths(paths[1..], env)
  }

  lemma {:induction false} SaysNothingIff(v: Value)
    ensures ValueDeclared(Some(v)) <==> !SaysNothing(v)
  {
    if v.StrV? {
      TrimsToNothing(v.s);
      TrimsToUnknown(v.s);
    }
  }

  lemma ReadsBelow(m: Env, k: string, rest: seq<string>)
    requires rest != []
    ensures ReadPath(m, [k] + rest) == ReadPath(MapAt(m, k), rest)
  {
    assert ([k] + rest)[1..] == rest;
    EmptyReads(rest);
  }

  lemma ReadsHere(m: Env, k: string)
    ensures ReadPath(m, [k]) == Lookup(m, k)
  {}

  lemma {:induction false} FactReads(obj: Env, f: Fact)
    ensures match f
            case Field(name) => ReadPath(obj, Place(f)) == Lookup(obj, name)
            case Attr(name) => ReadPath(obj, Place(f)) == Lookup(MapAt(obj, "attrs"), name)
            case Identity(name) => ReadPath(obj, Place(f)) == Lookup(MapAt(MapAt(obj, "identity"), "attrs"), name)
  {
    match f
    case Field(name) =>
    case Attr(name) => ReadsBelow(obj, "attrs", [name]);
    case Identity(name) =>
      ReadsBelow(obj, "identity", ["attrs", name]);
      ReadsBelow(MapAt(obj, "identity"), "attrs", [name]);
      assert ["identity"] + ["attrs", name] == ["identity", "attrs", name] && ["attrs"] + [name] == ["attrs", name];
  }

  lemma {:induction false} ElementReads(r: Root, env: Env, rest: seq<string>)
    requires r != RootKB && r != RootG && rest != []
    ensures ScopeMap(r, env).None? ==> ReadPath(env, Element(r) + rest) == None
    ensures ScopeMap(r, env).Some? ==> ReadPath(env, Element(r) + rest) == ReadPath(ScopeMap(r, env).value, rest)
  {
    var top := if r == RootN then "n" else "e";
    match r
    case RootN => ReadsBelow(env, "n", rest); EmptyReads(rest);
    case RootE => ReadsBelow(env, "e", rest); EmptyReads(rest);
    case RootFrom => SideReads(env, "from", rest);
    case RootTo => SideReads(env, "to", rest);
  }

  lemma {:induction false} SideReads(env: Env, side: string, rest: seq<string>)
    requires rest != []
    ensures EndpointMap(side, env).None? ==> ReadPath(env, ["e", side] + rest) == None
    ensures EndpointMap(side, env).Some? ==> ReadPath(env, ["e", side] + rest) == ReadPath(EndpointMap(side, env).value, rest)
  {
    assert ["e", side] + rest == ["e"] + ([side] + rest);
    ReadsBelow(env, "e", [side] + rest);
    ReadsBelow(MapAt(env, "e"), side, rest);
    EmptyReads(rest);
  }

  lemma {:induction false} PlaceholderIff(p: RequiredPath, v: Value, env: Env, obj: Env)
    requires p.root != RootKB && p.root != RootG && p.fact.Attr? && ScopeMap(p.root, env) == Some(obj)
    ensures ImportedPlaceholder(p.fact.name, v, obj, env) <==> IsPlaceholder(p, v, env)
  {
    ElementReads(p.root, env, ["id"]);
    ReadsHere(obj, "id");
    if "g" in env && env["g"].GraphV? && env["g"].prov.MapV? {
      var prov, id := env["g"].prov.m, ElementId(obj);
      ReadsBelow(prov, "elements", [id, "kind"]);
      ReadsBelow(MapAt(prov, "elements"), id, ["kind"]);
      ReadsHere(MapAt(MapAt(prov, "elements"), id), "kind");
      assert ["elements"] + [id, "kind"] == ["elements", id, "kind"] && [id] + ["kind"] == [id, "kind"];
    }
  }

  /** A required path counts as undeclared exactly when the model holds nothing there that says anything. */
  lemma {:induction false} UndeclaredIsMissing(p: RequiredPath, env: Env)
    ensures PathDeclared(p, env) <==> !Missing(p, env)
  {
    match p.root
    case RootKB =>
      ReadsBelow(env, "kb", ["available"]);
      ReadsHere(MapAt(env, "kb"), "available");
      assert ["kb"] + ["available"] == ["kb", "available"];
    case RootG =>
      if "g" in env && env["g"].GraphV? && p.fact.name in env["g"].attrs {
        SaysNothingIff(env["g"].attrs[p.fact.name]);
      }
    case _ => ElementIsMissing(p, env);
  }

  lemma {:induction false} ElementIsMissing(p: RequiredPath, env: Env)
    requires p.root != RootKB && p.root != RootG
    ensures PathDeclared(p, env) <==> !Missing(p, env)
  {
    var v := ReadPath(env, Element(p.root) + Place(p.fact));
    ElementReads(p.root, env, Place(p.fact));
    if v.Some? {
      SaysNothingIff(v.value);
      FactReads(ScopeMap(p.root, env).value, p.fact);
      if p.fact.Attr? {
        PlaceholderIff(p, v.value, env, ScopeMap(p.root, env).value);
      }
    } else if ScopeMap(p.root, env).Some? {
      FactReads(ScopeMap(p.root, env).value, p.fact);
    }
  }

  lemma {:induction false} UndeclaredAreMissing(paths: seq<RequiredPath>, env: Env)
    ensures UndeclaredPaths(paths, env) == MissingPaths(paths, env)
  {
    if paths != [] {
      UndeclaredIsMissing(paths[0], env);
      UndeclaredAreMissing(paths[1..], env);
    }
  }

  lemma {:induction false} MissingPathsAre(paths: seq<RequiredPath>, env: Env, p: RequiredPath)
    ensures p in MissingPaths(paths, env) <==> p in paths && Missing(p, env)
  {
    if paths != [] {
      MissingPathsAre(paths[1..], env, p);
    }
  }

  // ---- the verdicts ------------------------------------------------------------------------------

  /** The domain lets the element in. */
  predicate InDomain(q: Requirement, env: Env, helpers: Helpers) {
    q.domain.Some? ==> Eval(q.domain.value, env, helpers) == BoolV(true)
  }

  predicate DomainDecides(q: Requirement, env: Env, helpers: Helpers) {
    q.domain.Some? ==> Eval(q.domain.value, env, helpers).BoolV?
  }

  /** An element is not checked exactly when it did not fire, the rule requires facts, and either its domain gives
      no answer, or it lies in the domain, a required path is missing, and with the missing facts unknown the
      condition is not false. It is out of the domain exactly when the domain says false. */
  lemma {:induction false} NotCheckedIff(r: Rule, q: Requirement, v: Visit, hits: set<string>, helpers: Helpers)
    ensures var missing := MissingPaths(q.required, v.env);
            Classify(r, q, v, hits, helpers) == NotChecked <==>
            v.id !in hits && q.required != []
            && (!DomainDecides(q, v.env, helpers)
                || (InDomain(q, v.env, helpers) && missing != []
                    && Eval(r.cond, WithFacts(v.env, missing, Unknowns(|missing|)), helpers) != BoolV(false)))
    ensures Classify(r, q, v, hits, helpers) == OutOfDomain <==>
            v.id !in hits && q.required != [] && q.domain.Some? && Eval(q.domain.value, v.env, helpers) == BoolV(false)
  {
    UndeclaredAreMissing(q.required, v.env);
  }

  /** A declared fact never leaves an element unchecked, whatever it says: false, 0 and an empty list are facts
      where they are no placeholder. */
  lemma {:induction false} DeclaredIsChecked(r: Rule, q: Requirement, v: Visit, hits: set<string>, helpers: Helpers)
    requires DomainDecides(q, v.env, helpers) && forall p | p in q.required :: HoldsZero(p, v.env)
    ensures Classify(r, q, v, hits, helpers) != NotChecked
  {
    forall p | p in q.required ensures !Missing(p, v.env) {
      ZeroIsHeld(p, v.env);
    }
    NoneMissing(q.required, v.env);
    NotCheckedIff(r, q, v, hits, helpers);
  }

  /** The path holds false, 0 or an empty list that is no list of scopes; for the knowledge base, that it is there. */
  predicate HoldsZero(p: RequiredPath, env: Env) {
    match p.root
    case RootKB => ReadPath(env, ["kb", "available"]) == Some(BoolV(true))
    case RootG => "g" in env && env["g"].GraphV? && p.fact.name in env["g"].attrs && env["g"].attrs[p.fact.name] in Zeros()
    case _ =>
      var held := ReadPath(env, Element(p.root) + Place(p.fact));
      held.Some? && held.value in Zeros() && p.fact != Attr("scopes")
  }

  lemma ZeroIsHeld(p: RequiredPath, env: Env)
    requires HoldsZero(p, env)
    ensures !Missing(p, env)
  {}

  function Zeros(): set<Value> { {BoolV(false), IntV(0), ListV([])} }

  lemma {:induction false} NoneMissing(paths: seq<RequiredPath>, env: Env)
    requires forall p | p in paths :: !Missing(p, env)
    ensures MissingPaths(paths, env) == []
  {
    if paths != [] {
      NoneMissing(paths[1..], env);
    }
  }

  /** Coverage is sound: where an element of the domain is decided without having fired, although a required path
      holds nothing, null, blank text or "unknown", the condition is false and stays false for every value of that
      path and of the others that are missing. */
  lemma {:induction false} DecidedStaysFalse(r: Rule, q: Requirement, u: Universe, fired: seq<Finding>, helpers: Helpers,
                                             i: nat, vals: seq<Value>)
    requires Visits(r.scope, u).Ok? && i < |Visits(r.scope, u).value|
    requires r.guards == TypeGuards(r.scope, r.cond) && Run(r, u, r.guards, helpers) == Ok(fired)
    requires Literate(r.cond) && Monotone(helpers) && forall p | p in q.required :: WellFormed(r.scope, p)
    requires var v := Visits(r.scope, u).value[i];
             ConcreteEnv(v.env) && Classify(r, q, v, Hits(fired), helpers) == Decided
             && |vals| == |MissingPaths(q.required, v.env)|
    ensures var v := Visits(r.scope, u).value[i];
            Eval(r.cond, v.env, helpers) == BoolV(false)
            && Eval(r.cond, WithFacts(v.env, MissingPaths(q.required, v.env), vals), helpers) == BoolV(false)
            && (forall p :: p in MissingPaths(q.required, v.env) <==> p in q.required && Missing(p, v.env))
  {
    var v := Visits(r.scope, u).value[i];
    UndeclaredAreMissing(q.required, v.env);
    CoverageIsSound(r, q, u, fired, helpers, i, vals);
    forall p ensures p in MissingPaths(q.required, v.env) <==> p in q.required && Missing(p, v.env) {
      MissingPathsAre(q.required, v.env, p);
    }
  }

  // ---- where a fact is written -------------------------------------------------------------------

  /** A fact of an element is written where its declaration is read; one of an identity also beside the identity's
      own fields, where conditions read it. */
  lemma {:induction false} WriteIsRead(scope: Scope, env: Env, p: RequiredPath, v: Value)
    requires WellFormed(scope, p) && p.root != RootKB && p.root != RootG
    ensures ReadPath(Write(env, p, v), Element(p.root) + Place(p.fact)) == Some(v)
    ensures p.fact.Identity? ==> ReadPath(Write(env, p, v), Element(p.root) + ["identity", p.fact.name]) == Some(v)
  {
    var after := Write(env, p, v);
    FactIsNotAttrs(scope, p);
    ElementReads(p.root, after, Place(p.fact));
    ElementReads(p.root, after, ["identity", p.fact.name]);
    var obj := Holder(env, p.root);
    assert ScopeMap(p.root, after) == Some(WriteFact(obj, p.fact, v));
    FactIsRead(obj, p.fact, v);
  }

  function Holder(env: Env, r: Root): map<string, Value> {
    match r
    case RootN => MapAt(env, "n")
    case RootE => MapAt(env, "e")
    case RootFrom => MapAt(MapAt(env, "e"), "from")
    case RootTo => MapAt(MapAt(env, "e"), "to")
    case _ => map[]
  }

  lemma {:induction false} FactIsRead(obj: Env, f: Fact, v: Value)
    requires f.name != "attrs"
    ensures ReadPath(WriteFact(obj, f, v), Place(f)) == Some(v)
    ensures f.Identity? ==> ReadPath(WriteFact(obj, f, v), ["identity", f.name]) == Some(v)
  {
    var after := WriteFact(obj, f, v);
    FactReads(after, f);
    if f.Identity? {
      ReadsBelow(after, "identity", [f.name]);
      assert ["identity"] + [f.name] == ["identity", f.name];
    }
  }

  // ---- which paths a rule may require ------------------------------------------------------------

  /** The facts of a node a rule may require: its zone and layer, its attributes, and thirteen fields of its
      identity. */
  predicate OfNode(f: Fact) {
    match f
    case Field(name) => name == "zone" || name == "layer"
    case Attr(name) => name != "attrs"
    case Identity(name) => name in ["name", "kind", "ref", "issuer", "credential_type", "credential_ttl", "rotation_days", "sponsor",
                                    "owner", "blueprint", "registry", "federation", "trust_domain"]
  }

  /** A node rule may require facts of the node, an edge rule facts of its ends and five fields and the attributes of
      the edge; any rule those of the graph's attributes and the knowledge base. */
  lemma {:induction false} AcceptedPaths(scope: Scope, p: RequiredPath)
    ensures p.root == RootN ==> (WellFormed(scope, p) <==> scope == NodeScope && OfNode(p.fact))
    ensures p.root in {RootFrom, RootTo} ==> (WellFormed(scope, p) <==> scope == EdgeScope && OfNode(p.fact))
    ensures p.root == RootE ==>
              (WellFormed(scope, p) <==>
               scope == EdgeScope && ((p.fact.Attr? && p.fact.name != "attrs")
                                      || (p.fact.Field? && p.fact.name in ["auth", "encryption", "data_class", "protocol", "label"])))
    ensures p.root == RootG ==> (WellFormed(scope, p) <==> p.fact.Attr? && p.fact.name != "attrs")
  {}

  // ---- what the pass lists -----------------------------------------------------------------------

  /** An element is listed under a verdict exactly when it has it, as often as it is visited. */
  lemma {:induction false} ListedIff(r: Rule, q: Requirement, visits: seq<Visit>, hits: set<string>, helpers: Helpers, verdict: Verdict,
                                     n: nat, id: string)
    requires n <= |visits|
    ensures id in IdsWith(r, q, visits, hits, helpers, verdict, n) <==>
            exists i :: 0 <= i < n && visits[i].id == id && Classify(r, q, visits[i], hits, helpers) == verdict
  {
    if n > 0 {
      ListedIff(r, q, visits, hits, helpers, verdict, n - 1, id);
    }
  }
}
