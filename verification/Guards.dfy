/** Type guards (rules/guard.go) and the finding pass of one rule (rules/engine.go): elements a leading
    type test certainly excludes are skipped without evaluating the condition. */
module Guards {
  import opened Options
  import opened Cel

  datatype Scope = NodeScope | EdgeScope | GraphScope | OtherScope(name: string)

  /** A leading type test: the field path under the scope variable and the strings it accepts. */
  datatype Guard = Guard(path: seq<string>, values: set<string>)

  type Element = map<string, Value>

  // ---- reading guards from a condition -----------------------------------------------------------

  function GuardPaths(scope: Scope): set<seq<string>> {
    match scope
    case NodeScope => {["type"]}
    case EdgeScope => {["kind"], ["from", "type"], ["to", "type"]}
    case _ => {}
  }

  function ScopeVar(scope: Scope): Option<string> {
    match scope
    case NodeScope => Some("n")
    case EdgeScope => Some("e")
    case _ => None
  }

  /** conjuncts: the operands of the top-level `&&` tree. */
  function Conjuncts(e: Expr): seq<Expr>
    decreases e, 1
  {
    if e.Call? && e.fn == AND then ConjunctsOf(e.args) else [e]
  }

  function ConjunctsOf(es: seq<Expr>): seq<Expr>
    decreases es, 0
  {
    if es == [] then [] else Conjuncts(es[0]) + ConjunctsOf(es[1..])
  }

  /** `v.a.b` reads as the path a, b: plain selection on the variable only. */
  function PathFrom(v: string, e: Expr): Option<seq<string>> {
    match e
    case Ident(name) => if name == v then Some([]) else None
    case Select(operand, field, false) =>
      var p := PathFrom(v, operand);
      if p.Some? then Some(p.value + [field]) else None
    case _ => None
  }

  function FieldPath(v: string, e: Expr): Option<seq<string>> {
    if PathFrom(v, e) == Some([]) then None else PathFrom(v, e)
  }

  function Reversed(s: seq<string>): seq<string> {
    if s == [] then [] else Reversed(s[1..]) + [s[0]]
  }

  lemma {:induction false} ReversedAppend(s: seq<string>, x: string)
    ensures Reversed(s + [x]) == [x] + Reversed(s)
  {
    if s != [] {
      assert (s + [x])[1..] == s[1..] + [x];
      ReversedAppend(s[1..], x);
    }
  }

  /** fieldPath: the loop collects the fields from the outermost selection inwards and reverses them. */
  method ReadFieldPath(v: string, e: Expr) returns (path: Option<seq<string>>)
    ensures path == FieldPath(v, e)
  {
    var cur := e;
    var rev: seq<string> := [];
    assert PathFrom(v, e).Some? ==> PathFrom(v, e).value + [] == PathFrom(v, e).value;
    while cur.Select?
      invariant PathFrom(v, e) == if PathFrom(v, cur).None? then None else Some(PathFrom(v, cur).value + Reversed(rev))
      decreases cur
    {
      if cur.testOnly {
        return None;
      }
      ReversedAppend(rev, cur.field);
      if PathFrom(v, cur.operand).Some? {
        var p := PathFrom(v, cur.operand).value;
        assert (p + [cur.field]) + Reversed(rev) == p + ([cur.field] + Reversed(rev));
      }
      rev := rev + [cur.field];
      cur := cur.operand;
    }
    if !cur.Ident? || cur.name != v || |rev| == 0 {
      assert PathFrom(v, cur).Some? ==> rev == [];
      return None;
    }
    ReversedSize(rev);
    assert [] + Reversed(rev) == Reversed(rev);
    return Some(Reversed(rev));
  }

  lemma {:induction false} ReversedSize(s: seq<string>)
    ensures |Reversed(s)| == |s|
  {
    if s != [] {
      ReversedSize(s[1..]);
    }
  }

  function StringLiteral(e: Expr): Option<string> {
    if e.Lit? && e.v.StrV? then Some(e.v.s) else None
  }

  /** The literals of a list expression, if all its elements are string literals. */
  function StringLiterals(es: seq<Expr>): Option<set<string>> {
    if es == [] then Some({})
    else
      var rest := StringLiterals(es[1..]);
      if StringLiteral(es[0]).Some? && rest.Some? then Some({StringLiteral(es[0]).value} + rest.value) else None
  }

  function GuardOf(scope: Scope, v: string, c: Expr): Option<Guard> {
    if !c.Call? || c.target.Some? || |c.args| != 2 then None
    else
      var path := FieldPath(v, c.args[0]);
      if path.None? || path.value !in GuardPaths(scope) then None
      else if c.fn == EQUALS then
        var s := StringLiteral(c.args[1]);
        if s.Some? then Some(Guard(path.value, {s.value})) else None
      else if c.fn == IN && c.args[1].ListE? then
        var values := StringLiterals(c.args[1].elems);
        if values.Some? then Some(Guard(path.value, values.value)) else None
      else None
  }

  function GuardsOf(scope: Scope, v: string, cs: seq<Expr>): seq<Guard> {
    if cs == [] then []
    else
      var g := GuardOf(scope, v, cs[0]);
      (if g.Some? then [g.value] else []) + GuardsOf(scope, v, cs[1..])
  }

  /** typeGuards: one guard per top-level conjunct of a supported form. */
  function TypeGuards(scope: Scope, e: Expr): seq<Guard> {
    var v := ScopeVar(scope);
    if v.None? then [] else GuardsOf(scope, v.value, Conjuncts(e))
  }

  // ---- excluding elements ------------------------------------------------------------------------

  /** The value at a path of fields, if every step but the last is a map holding the field. */
  function At(v: Value, path: seq<string>): Option<Value>
    decreases |path|
  {
    if path == [] then Some(v)
    else if v.MapV? && path[0] in v.m then At(v.m[path[0]], path[1..])
    else None
  }

  predicate Excludes1(g: Guard, m: Element) {
    At(MapV(m), g.path).Some? && At(MapV(m), g.path).value.StrV? && At(MapV(m), g.path).value.s !in g.values
  }

  predicate Excludes(guards: seq<Guard>, m: Element) {
    exists i :: 0 <= i < |guards| && Excludes1(guards[i], m)
  }

  /** excludes: the loop follows each path through maps; an absent or non-map step leaves nothing. */
  method CheckExcludes(guards: seq<Guard>, m: Element) returns (r: bool)
    ensures r == Excludes(guards, m)
  {
    for i := 0 to |guards|
      invariant forall j | 0 <= j < i :: !Excludes1(guards[j], m)
    {
      var g := guards[i];
      var cur: Option<Value> := Some(MapV(m));
      var k := 0;
      while k < |g.path| && cur.Some?
        invariant 0 <= k <= |g.path|
        invariant At(MapV(m), g.path) == if cur.None? then None else At(cur.value, g.path[k..])
      {
        cur := if cur.value.MapV? && g.path[k] in cur.value.m then Some(cur.value.m[g.path[k]]) else None;
        k := k + 1;
      }
      if cur.Some? && cur.value.StrV? && cur.value.s !in g.values {
        return true;
      }
    }
    return false;
  }

  // ---- an excluded element cannot satisfy the condition ------------------------------------------

  lemma {:induction false} AtAppend(v: Value, path: seq<string>, f: string)
    ensures At(v, path + [f])
         == if At(v, path).Some? && At(v, path).value.MapV? && f in At(v, path).value.m
            then Some(At(v, path).value.m[f]) else None
    decreases |path|
  {
    if path == [] {
      assert (path + [f])[1..] == [];
    } else if v.MapV? && path[0] in v.m {
      assert (path + [f])[1..] == path[1..] + [f];
      AtAppend(v.m[path[0]], path[1..], f);
    }
  }

  lemma {:induction false} PathEvaluates(v: string, c: Expr, env: Env, helpers: Helpers)
    requires PathFrom(v, c).Some? && v in env && env[v].MapV?
    requires At(env[v], PathFrom(v, c).value).Some?
    ensures Eval(c, env, helpers) == At(env[v], PathFrom(v, c).value).value
    decreases c
  {
    if c.Select? {
      AtAppend(env[v], PathFrom(v, c.operand).value, c.field);
      PathEvaluates(v, c.operand, env, helpers);
    }
  }

  lemma {:induction false} LiteralsEvaluate(es: seq<Expr>, env: Env, helpers: Helpers)
    requires StringLiterals(es).Some?
    ensures var vals := EvalAll(es, env, helpers);
            Scalars(vals) && FirstStop(vals).None?
            && forall s: string :: StrV(s) in vals <==> s in StringLiterals(es).value
  {
    if es != [] {
      LiteralsEvaluate(es[1..], env, helpers);
      var vals := EvalAll(es, env, helpers);
      assert vals == [vals[0]] + EvalAll(es[1..], env, helpers);
    }
  }

  /** The conjunct a guard was read from is false on an element the guard excludes. */
  lemma {:induction false} GuardedConjunctIsFalse(scope: Scope, v: string, c: Expr, env: Env, helpers: Helpers)
    requires GuardOf(scope, v, c).Some? && v in env && env[v].MapV?
    requires Excludes1(GuardOf(scope, v, c).value, env[v].m)
    ensures Eval(c, env, helpers) == BoolV(false)
  {
    PathEvaluates(v, c.args[0], env, helpers);
    TwoArgs(c.args, env, helpers);
    var a, b := Eval(c.args[0], env, helpers), Eval(c.args[1], env, helpers);
    assert [] + [a, b] == [a, b];
    if c.fn == IN {
      LiteralsEvaluate(c.args[1].elems, env, helpers);
    }
    NothingStops([a, b]);
  }

  lemma {:induction false} TwoArgs(args: seq<Expr>, env: Env, helpers: Helpers)
    requires |args| == 2
    ensures EvalAll(args, env, helpers) == [Eval(args[0], env, helpers), Eval(args[1], env, helpers)]
  {
    assert args[1..] == [args[1]] && args[1..][1..] == [];
  }

  /** A false conjunct makes the whole condition false, whatever the others evaluate to. */
  lemma {:induction false} FalseConjunctDecides(e: Expr, c: Expr, env: Env, helpers: Helpers)
    requires c in Conjuncts(e) && Eval(c, env, helpers) == BoolV(false)
    ensures Eval(e, env, helpers) == BoolV(false)
    decreases e, 1
  {
    if e.Call? && e.fn == AND {
      FalseAmong(e.args, c, env, helpers);
    }
  }

  lemma {:induction false} FalseAmong(es: seq<Expr>, c: Expr, env: Env, helpers: Helpers)
    requires c in ConjunctsOf(es) && Eval(c, env, helpers) == BoolV(false)
    ensures BoolV(false) in EvalAll(es, env, helpers)
    decreases es, 0
  {
    if c in Conjuncts(es[0]) {
      FalseConjunctDecides(es[0], c, env, helpers);
      assert EvalAll(es, env, helpers)[0] == BoolV(false);
    } else {
      FalseAmong(es[1..], c, env, helpers);
      assert EvalAll(es, env, helpers) == [Eval(es[0], env, helpers)] + EvalAll(es[1..], env, helpers);
    }
  }

  lemma {:induction false} GuardComesFrom(scope: Scope, v: string, cs: seq<Expr>, g: Guard)
    requires g in GuardsOf(scope, v, cs)
    ensures exists c :: c in cs && GuardOf(scope, v, c) == Some(g)
  {
    if GuardOf(scope, v, cs[0]) != Some(g) {
      GuardComesFrom(scope, v, cs[1..], g);
      var c :| c in cs[1..] && GuardOf(scope, v, c) == Some(g);
      assert c in cs;
    } else {
      assert cs[0] in cs;
    }
  }

  /** On an element its guards exclude, a condition is false: no error, no unknown, whatever else it
      says. */
  lemma {:induction false} ExcludedIsFalse(scope: Scope, e: Expr, env: Env, helpers: Helpers)
    requires ScopeVar(scope).Some? && ScopeVar(scope).value in env && env[ScopeVar(scope).value].MapV?
    requires Excludes(TypeGuards(scope, e), env[ScopeVar(scope).value].m)
    ensures Eval(e, env, helpers) == BoolV(false)
  {
    var v := ScopeVar(scope).value;
    var i :| 0 <= i < |TypeGuards(scope, e)| && Excludes1(TypeGuards(scope, e)[i], env[v].m);
    var g := TypeGuards(scope, e)[i];
    GuardComesFrom(scope, v, Conjuncts(e), g);
    var c :| c in Conjuncts(e) && GuardOf(scope, v, c) == Some(g);
    GuardedConjunctIsFalse(scope, v, c, env, helpers);
    FalseConjunctDecides(e, c, env, helpers);
  }

  // ---- the finding pass --------------------------------------------------------------------------

  datatype Finding = Finding(ruleId: string, elementId: string, severity: string, message: string)

  datatype RuleError = RuleError(elementId: string, message: string)

  /** One rule: condition, guards, severity overrides (first match wins) and message template. */
  datatype Rule = Rule(
    id: string,
    scope: Scope,
    cond: Expr,
    guards: seq<Guard>,
    severity: string,
    overrides: seq<(Expr, string)>,
    render: Env -> Result<string, string>)

  /** What one evaluation runs over: the elements in model order and the shared variables. */
  datatype Universe = Universe(id: string, nodes: seq<Element>, edges: seq<Element>, shared: Env)

  /** One visit: the element id, its activation and, outside graph scope, the element. */
  datatype Visit = Visit(id: string, env: Env, element: Option<Element>)

  function ElementId(m: Element): string {
    if "id" in m && m["id"].StrV? then m["id"].s else ""
  }

  function VisitsOf(v: string, elements: seq<Element>, shared: Env): (r: seq<Visit>)
    ensures |r| == |elements|
    ensures forall i | 0 <= i < |elements| ::
              r[i] == Visit(ElementId(elements[i]), shared[v := MapV(elements[i])], Some(elements[i]))
  {
    seq(|elements|, i requires 0 <= i < |elements| =>
      Visit(ElementId(elements[i]), shared[v := MapV(elements[i])], Some(elements[i])))
  }

  /** forEachElement: what it visits, or the error of an unknown scope. */
  function Visits(scope: Scope, u: Universe): Result<seq<Visit>, RuleError> {
    match scope
    case NodeScope => Ok(VisitsOf("n", u.nodes, u.shared))
    case EdgeScope => Ok(VisitsOf("e", u.edges, u.shared))
    case GraphScope => Ok([Visit(u.id, u.shared, None)])
    case OtherScope(name) => Err(RuleError("", "unknown scope " + name))
  }

  predicate Skipped(guards: seq<Guard>, v: Visit) {
    v.element.Some? && Excludes(guards, v.element.value)
  }

  function Severity(r: Rule, n: nat, env: Env, helpers: Helpers): Result<string, string>
    requires n <= |r.overrides|
    decreases |r.overrides| - n
  {
    if n == |r.overrides| then Ok(r.severity)
    else
      match EvalBool(r.overrides[n].0, env, helpers)
      case Err(error) => Err(error)
      case Ok(hit) => if hit then Ok(r.overrides[n].1) else Severity(r, n + 1, env, helpers)
  }

  /** One element: no finding, a finding, or the error that stops the rule. */
  function EvalVisit(r: Rule, v: Visit, helpers: Helpers): Result<Option<Finding>, RuleError> {
    match EvalBool(r.cond, v.env, helpers)
    case Err(error) => Err(RuleError(v.id, error))
    case Ok(hit) =>
      if !hit then Ok(None)
      else
        match Severity(r, 0, v.env, helpers)
        case Err(error) => Err(RuleError(v.id, error))
        case Ok(severity) =>
          match r.render(v.env)
          case Err(error) => Err(RuleError(v.id, error))
          case Ok(message) => Ok(Some(Finding(r.id, v.id, severity, message)))
  }

  /** The findings of the first n visits, or the first error among them. */
  function RunUpTo(r: Rule, visits: seq<Visit>, guards: seq<Guard>, helpers: Helpers, n: nat): Result<seq<Finding>, RuleError>
    requires n <= |visits|
  {
    if n == 0 then Ok([])
    else
      match RunUpTo(r, visits, guards, helpers, n - 1)
      case Err(error) => Err(error)
      case Ok(found) =>
        if Skipped(guards, visits[n - 1]) then Ok(found)
        else
          match EvalVisit(r, visits[n - 1], helpers)
          case Err(error) => Err(error)
          case Ok(None) => Ok(found)
          case Ok(Some(f)) => Ok(found + [f])
  }

  function Run(r: Rule, u: Universe, guards: seq<Guard>, helpers: Helpers): Result<seq<Finding>, RuleError> {
    match Visits(r.scope, u)
    case Err(error) => Err(error)
    case Ok(visits) => RunUpTo(r, visits, guards, helpers, |visits|)
  }

  /** runRule: evaluates one rule over all elements of its scope. */
  method RunRule(r: Rule, u: Universe, helpers: Helpers) returns (result: Result<seq<Finding>, RuleError>)
    ensures result == Run(r, u, r.guards, helpers)
  {
    var all := Visits(r.scope, u);
    if all.Err? {
      return Err(all.error);
    }
    var visits := all.value;
    var out := [];
    for i := 0 to |visits|
      invariant RunUpTo(r, visits, r.guards, helpers, i) == Ok(out)
    {
      var skip := false;
      if visits[i].element.Some? {
        skip := CheckExcludes(r.guards, visits[i].element.value);
      }
      if !skip {
        var outcome := EvalVisit(r, visits[i], helpers);
        if outcome.Err? {
          ErrorStops(r, visits, r.guards, helpers, i + 1, |visits|);
          return Err(outcome.error);
        }
        if outcome.value.Some? {
          out := out + [outcome.value.value];
        }
      }
    }
    return Ok(out);
  }

  /** The first error is the rule's answer. */
  lemma {:induction false} ErrorStops(r: Rule, visits: seq<Visit>, guards: seq<Guard>, helpers: Helpers, i: nat, n: nat)
    requires i <= n <= |visits| && RunUpTo(r, visits, guards, helpers, i).Err?
    ensures RunUpTo(r, visits, guards, helpers, n) == RunUpTo(r, visits, guards, helpers, i)
    decreases n
  {
    if i < n {
      ErrorStops(r, visits, guards, helpers, i, n - 1);
    }
  }

  // ---- skipping preserves meaning ----------------------------------------------------------------

  lemma {:induction false} SkippingPrefix(r: Rule, u: Universe, helpers: Helpers, n: nat)
    requires Visits(r.scope, u).Ok? && n <= |Visits(r.scope, u).value|
    ensures var visits := Visits(r.scope, u).value;
            RunUpTo(r, visits, TypeGuards(r.scope, r.cond), helpers, n) == RunUpTo(r, visits, [], helpers, n)
  {
    if n > 0 {
      SkippingPrefix(r, u, helpers, n - 1);
      var v := Visits(r.scope, u).value[n - 1];
      if Skipped(TypeGuards(r.scope, r.cond), v) {
        ExcludedIsFalse(r.scope, r.cond, v.env, helpers);
      }
    }
  }

  /** For every condition, every graph and every behaviour of the helpers, a rule run with the guards
      read from its condition returns the same findings in the same order, or fails with the same first
      error, as without guards. */
  lemma {:induction false} GuardsPreserveMeaning(r: Rule, u: Universe, helpers: Helpers)
    ensures Run(r, u, TypeGuards(r.scope, r.cond), helpers) == Run(r, u, [], helpers)
  {
    if Visits(r.scope, u).Ok? {
      SkippingPrefix(r, u, helpers, |Visits(r.scope, u).value|);
    }
  }
}
