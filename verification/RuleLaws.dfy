/** What one rule reports and what its type guards skip, in terms of the condition, the elements and the
    overrides (rules/engine.go, rules/guard.go), and the operators conditions are made of. */
module RuleLaws {
  import opened Options
  import opened Cel
  import opened Guards

  // ---- operators ---------------------------------------------------------------------------------

  function Both(x: Expr, y: Expr): Expr { Call("_&&_", None, [x, y]) }

  function Either(x: Expr, y: Expr): Expr { Call("_||_", None, [x, y]) }

  function Not(x: Expr): Expr { Call("!_", None, [x]) }

  function Equal(x: Expr, y: Expr): Expr { Call("_==_", None, [x, y]) }

  function Within(x: Expr, y: Expr): Expr { Call("@in", None, [x, y]) }

  function Choose(c: Expr, x: Expr, y: Expr): Expr { Call("_?_:_", None, [c, x, y]) }

  lemma Operands(x: Expr, y: Expr, z: Expr, env: Env, helpers: Helpers)
    ensures EvalAll([x], env, helpers) == [Eval(x, env, helpers)]
    ensures EvalAll([x, y], env, helpers) == [Eval(x, env, helpers), Eval(y, env, helpers)]
    ensures EvalAll([x, y, z], env, helpers) == [Eval(x, env, helpers), Eval(y, env, helpers), Eval(z, env, helpers)]
  {}

  /** `&&` is false as soon as one side is, whatever the other is: also an error or an unknown; it is true when both
      are. `||` is the same with true and false exchanged. An error beside a side that does not decide stays an
      error, and an unknown goes before it. */
  lemma {:induction false} AbsorbingTable(x: Expr, y: Expr, env: Env, helpers: Helpers)
    ensures var a, b := Eval(x, env, helpers), Eval(y, env, helpers);
            (Eval(Both(x, y), env, helpers) == BoolV(false) <==> a == BoolV(false) || b == BoolV(false))
            && (Eval(Both(x, y), env, helpers) == BoolV(true) <==> a == BoolV(true) && b == BoolV(true))
            && (Eval(Either(x, y), env, helpers) == BoolV(true) <==> a == BoolV(true) || b == BoolV(true))
            && (Eval(Either(x, y), env, helpers) == BoolV(false) <==> a == BoolV(false) && b == BoolV(false))
            && (Eval(Both(x, y), env, helpers).UnknownV? <==>
                a != BoolV(false) && b != BoolV(false) && (a.UnknownV? || b.UnknownV?))
            && (Eval(Either(x, y), env, helpers).UnknownV? <==>
                a != BoolV(true) && b != BoolV(true) && (a.UnknownV? || b.UnknownV?))
            && (a.ErrV? && b == BoolV(true) ==> Eval(Both(x, y), env, helpers) == a == Eval(Both(y, x), env, helpers))
            && (a.ErrV? && b == BoolV(false) ==> Eval(Either(x, y), env, helpers) == a == Eval(Either(y, x), env, helpers))
  {
    Operands(x, y, y, env, helpers);
    Operands(y, x, y, env, helpers);
    var a, b := Eval(x, env, helpers), Eval(y, env, helpers);
    PairAbsorbs(false, a, b);
    PairAbsorbs(true, a, b);
    PairAbsorbs(false, b, a);
    PairAbsorbs(true, b, a);
  }

  lemma {:induction false} PairAbsorbs(decider: bool, a: Value, b: Value)
    ensures var r := Absorb(decider, [a, b]);
            (r == BoolV(decider) <==> a == BoolV(decider) || b == BoolV(decider))
            && (r == BoolV(!decider) <==> a == BoolV(!decider) && b == BoolV(!decider))
            && (r.UnknownV? <==> a != BoolV(decider) && b != BoolV(decider) && (a.UnknownV? || b.UnknownV?))
            && (a.ErrV? && b == BoolV(!decider) ==> r == a)
            && (b.ErrV? && a == BoolV(!decider) ==> r == b)
  {
    var vals := [a, b];
    assert vals[0] == a && vals[1] == b;
    assert vals[1..] == [b] && vals[1..][1..] == [];
    assert FirstError(vals[1..]) == if b.ErrV? then b else NO_OVERLOAD;
    assert FirstUnknown(vals).UnknownV?;
  }

  /** Negation, equality, membership and choice on values that are no error and no unknown. */
  lemma {:induction false} StrictTable(x: Expr, y: Expr, env: Env, helpers: Helpers)
    ensures var a, b := Eval(x, env, helpers), Eval(y, env, helpers);
            (a.BoolV? ==> Eval(Not(x), env, helpers) == BoolV(!a.b))
            && (Stops(a) ==> Eval(Not(x), env, helpers) == Eval(Equal(x, y), env, helpers) == Eval(Within(x, y), env, helpers) == a)
            && (!Stops(a) && Stops(b) ==> Eval(Equal(x, y), env, helpers) == Eval(Within(x, y), env, helpers) == b)
            && (Scalar(a) && Scalar(b) ==> Eval(Equal(x, y), env, helpers) == BoolV(a == b))
            && (Scalar(a) && b.ListV? && Scalars(b.items) ==> Eval(Within(x, y), env, helpers) == BoolV(a in b.items))
  {
    Operands(x, y, y, env, helpers);
    var a, b := Eval(x, env, helpers), Eval(y, env, helpers);
    assert [] + [a] == [a] && [] + [a, b] == [a, b] && [a, b][1..] == [b];
    TwoStop(a, b);
  }

  lemma TwoStop(a: Value, b: Value)
    ensures FirstStop([a]) == if Stops(a) then Some(a) else None
    ensures FirstStop([a, b]) == if Stops(a) then Some(a) else if Stops(b) then Some(b) else None
  {
    assert [a][1..] == [] && [b][1..] == [] && [a, b][1..] == [b];
    assert FirstStop([]) == None;
    assert FirstStop([b]) == if Stops(b) then Some(b) else None;
  }

  lemma {:induction false} ChoiceTable(c: Expr, x: Expr, y: Expr, env: Env, helpers: Helpers)
    ensures Eval(c, env, helpers) == BoolV(true) ==> Eval(Choose(c, x, y), env, helpers) == Eval(x, env, helpers)
    ensures Eval(c, env, helpers) == BoolV(false) ==> Eval(Choose(c, x, y), env, helpers) == Eval(y, env, helpers)
    ensures Stops(Eval(c, env, helpers)) ==> Eval(Choose(c, x, y), env, helpers) == Eval(c, env, helpers)
  {}

  /** attr(x, k, d) reads the attribute, and the default where it is missing or null. */
  lemma {:induction false} AttrReads(x: Expr, k: string, d: Value, env: Env, helpers: Helpers)
    requires Eval(x, env, helpers).MapV? && !Stops(d)
    ensures var m := Eval(x, env, helpers).m;
            var r := Eval(Call("attr", None, [x, Lit(StrV(k)), Lit(d)]), env, helpers);
            if "attrs" in m && m["attrs"].MapV? && k in m["attrs"].m && m["attrs"].m[k] != NullV then r == m["attrs"].m[k]
            else r == d
  {
    Operands(x, Lit(StrV(k)), Lit(d), env, helpers);
    var vals := [Eval(x, env, helpers), StrV(k), d];
    assert [] + vals == vals && vals[1..] == [StrV(k), d] && vals[1..][1..] == [d];
    assert FirstStop(vals) == FirstStop(vals[1..]) == FirstStop(vals[1..][1..]) == None;
  }

  /** A quantified condition over a list whose every item gives an answer: it holds for all items, or for some. */
  lemma {:induction false} QuantifierTable(range: Expr, x: string, body: Expr, env: Env, helpers: Helpers)
    requires Eval(range, env, helpers).ListV?
    requires forall v | v in Eval(range, env, helpers).items :: Eval(body, env[x := v], helpers).BoolV?
    ensures var items := Eval(range, env, helpers).items;
            Eval(Quantified(true, range, x, body), env, helpers)
            == BoolV(forall v | v in items :: Eval(body, env[x := v], helpers) == BoolV(true))
            && Eval(Quantified(false, range, x, body), env, helpers)
               == BoolV(exists v :: v in items && Eval(body, env[x := v], helpers) == BoolV(true))
  {
    QuantifiedIs(true, range, x, body, env, helpers);
    QuantifiedIs(false, range, x, body, env, helpers);
  }

  lemma {:induction false} QuantifiedIs(forAll: bool, range: Expr, x: string, body: Expr, env: Env, helpers: Helpers)
    requires Eval(range, env, helpers).ListV?
    requires forall v | v in Eval(range, env, helpers).items :: Eval(body, env[x := v], helpers).BoolV?
    ensures Eval(Quantified(forAll, range, x, body), env, helpers)
         == BoolV(if exists v :: v in Eval(range, env, helpers).items && Eval(body, env[x := v], helpers) == BoolV(!forAll) then !forAll else forAll)
  {
    var items := Eval(range, env, helpers).items;
    var vals := EvalEach(body, env, x, items, helpers);
    EachIs(body, env, x, items, helpers, vals, !forAll);
    forall i | 0 <= i < |vals| ensures vals[i].BoolV? {
      assert items[i] in items;
    }
    AbsorbBooleans(!forAll, vals);
  }

  lemma {:induction false} EachIs(body: Expr, env: Env, x: string, items: seq<Value>, helpers: Helpers, vals: seq<Value>, b: bool)
    requires vals == EvalEach(body, env, x, items, helpers)
    ensures BoolV(b) in vals <==> exists v :: v in items && Eval(body, env[x := v], helpers) == BoolV(b)
  {
    if BoolV(b) in vals {
      var i :| 0 <= i < |vals| && vals[i] == BoolV(b);
      assert items[i] in items && Eval(body, env[x := items[i]], helpers) == BoolV(b);
    }
    if v :| v in items && Eval(body, env[x := v], helpers) == BoolV(b) {
      var i :| 0 <= i < |items| && items[i] == v;
      assert vals[i] == BoolV(b);
    }
  }

  lemma {:induction false} AbsorbBooleans(decider: bool, vals: seq<Value>)
    requires forall i | 0 <= i < |vals| :: vals[i].BoolV?
    ensures Absorb(decider, vals) == BoolV(if BoolV(decider) in vals then decider else !decider)
  {
    forall i | 0 <= i < |vals| ensures vals[i] in {BoolV(decider), BoolV(!decider)} {}
  }

  /** has(x.f) is true exactly when the map holds the field; selecting a field the map lacks is an error. */
  lemma {:induction false} SelectTable(x: Expr, f: string, env: Env, helpers: Helpers)
    requires Eval(x, env, helpers).MapV?
    ensures Eval(Select(x, f, true), env, helpers) == BoolV(f in Eval(x, env, helpers).m)
    ensures f in Eval(x, env, helpers).m ==> Eval(Select(x, f, false), env, helpers) == Eval(x, env, helpers).m[f]
    ensures f !in Eval(x, env, helpers).m ==> Eval(Select(x, f, false), env, helpers).ErrV?
  {}

  // ---- what a rule reports -----------------------------------------------------------------------

  /** The elements of a scope: a node is n, an edge is e, and the model as a whole stands for the graph. */
  function Seen(scope: Scope, u: Universe): seq<(string, Env)> {
    match scope
    case NodeScope => seq(|u.nodes|, i requires 0 <= i < |u.nodes| => (IdOf(u.nodes[i]), u.shared["n" := MapV(u.nodes[i])]))
    case EdgeScope => seq(|u.edges|, i requires 0 <= i < |u.edges| => (IdOf(u.edges[i]), u.shared["e" := MapV(u.edges[i])]))
    case GraphScope => [(u.id, u.shared)]
    case OtherScope(_) => []
  }

  function IdOf(m: map<string, Value>): string {
    if "id" in m && m["id"].StrV? then m["id"].s else ""
  }

  /** The severity is that of the first override whose condition is true: the ones before it are false. */
  predicate SeverityIs(r: Rule, env: Env, helpers: Helpers, severity: string) {
    if forall n | 0 <= n < |r.overrides| :: Eval(r.overrides[n].0, env, helpers) == BoolV(false) then severity == r.severity
    else
      exists n :: 0 <= n < |r.overrides| && Eval(r.overrides[n].0, env, helpers) == BoolV(true) && severity == r.overrides[n].1
                  && forall j | 0 <= j < n :: Eval(r.overrides[j].0, env, helpers) == BoolV(false)
  }

  lemma {:induction false} FirstOverrideWins(r: Rule, n: nat, env: Env, helpers: Helpers)
    requires n <= |r.overrides| && Severity(r, n, env, helpers).Ok?
    requires forall j | 0 <= j < n :: Eval(r.overrides[j].0, env, helpers) == BoolV(false)
    ensures SeverityIs(r, env, helpers, Severity(r, n, env, helpers).value)
    decreases |r.overrides| - n
  {
    if n < |r.overrides| && Eval(r.overrides[n].0, env, helpers) == BoolV(false) {
      FirstOverrideWins(r, n + 1, env, helpers);
    }
  }

  /** The finding of an element of the scope on which the condition is true. */
  predicate FoundOn(r: Rule, seen: (string, Env), helpers: Helpers, f: Finding) {
    Eval(r.cond, seen.1, helpers) == BoolV(true)
    && f.ruleId == r.id && f.elementId == seen.0 && SeverityIs(r, seen.1, helpers, f.severity)
    && r.render(seen.1) == Ok(f.message)
  }

  /** The positions of the elements the findings are of. */
  ghost predicate FindingsOf(r: Rule, seen: seq<(string, Env)>, helpers: Helpers, fired: seq<Finding>, at: seq<nat>) {
    |at| == |fired|
    && (forall k | 0 <= k < |at| :: at[k] < |seen| && FoundOn(r, seen[at[k]], helpers, fired[k]))
    && (forall j, k | 0 <= j < k < |at| :: at[j] < at[k])
    && forall i | 0 <= i < |seen| && i !in at :: Eval(r.cond, seen[i].1, helpers) == BoolV(false)
  }

  lemma {:induction false} SeenIsVisited(scope: Scope, u: Universe)
    ensures Visits(scope, u).Ok? <==> !scope.OtherScope?
    ensures Visits(scope, u).Ok? ==>
              |Visits(scope, u).value| == |Seen(scope, u)|
              && forall i | 0 <= i < |Seen(scope, u)| :: var v := Visits(scope, u).value[i]; (v.id, v.env) == Seen(scope, u)[i]
  {}

  lemma {:induction false} FindingsUpTo(r: Rule, visits: seq<Visit>, seen: seq<(string, Env)>, helpers: Helpers, n: nat) returns (at: seq<nat>)
    requires |seen| == |visits| && n <= |visits| && forall i | 0 <= i < |seen| :: (visits[i].id, visits[i].env) == seen[i]
    requires RunUpTo(r, visits, [], helpers, n).Ok?
    ensures FindingsOf(r, seen[..n], helpers, RunUpTo(r, visits, [], helpers, n).value, at)
  {
    if n == 0 {
      at := [];
    } else {
      at := FindingsUpTo(r, visits, seen, helpers, n - 1);
      var before, v := RunUpTo(r, visits, [], helpers, n - 1).value, visits[n - 1];
      var f := EvalVisit(r, v, helpers);
      if f.Ok? && f.value.Some? {
        FirstOverrideWins(r, 0, v.env, helpers);
        OneMore(r, seen, helpers, before, at, n, f.value.value);
        at := at + [n - 1];
      } else {
        NoneMore(r, seen, helpers, before, at, n);
      }
    }
  }

  lemma {:induction false} OneMore(r: Rule, seen: seq<(string, Env)>, helpers: Helpers, fired: seq<Finding>, at: seq<nat>, n: nat, f: Finding)
    requires 0 < n <= |seen| && FindingsOf(r, seen[..n - 1], helpers, fired, at) && FoundOn(r, seen[n - 1], helpers, f)
    ensures FindingsOf(r, seen[..n], helpers, fired + [f], at + [n - 1])
  {
    assert forall i | 0 <= i < n - 1 :: seen[..n][i] == seen[..n - 1][i];
    forall i | 0 <= i < n && i !in at + [n - 1] ensures Eval(r.cond, seen[..n][i].1, helpers) == BoolV(false) {
      assert (at + [n - 1])[|at|] == n - 1;
      assert forall k | 0 <= k < |at| :: (at + [n - 1])[k] == at[k];
    }
  }

  lemma {:induction false} NoneMore(r: Rule, seen: seq<(string, Env)>, helpers: Helpers, fired: seq<Finding>, at: seq<nat>, n: nat)
    requires 0 < n <= |seen| && FindingsOf(r, seen[..n - 1], helpers, fired, at)
    requires Eval(r.cond, seen[n - 1].1, helpers) == BoolV(false)
    ensures FindingsOf(r, seen[..n], helpers, fired, at)
  {
    assert forall i | 0 <= i < n - 1 :: seen[..n][i] == seen[..n - 1][i];
  }

  /** A rule that runs without error reports, in model order, one finding for each element of its scope on which its
      condition is true, and on every other its condition is false. */
  lemma {:induction false} RunReports(r: Rule, u: Universe, helpers: Helpers, fired: seq<Finding>) returns (at: seq<nat>)
    requires r.guards == TypeGuards(r.scope, r.cond) && Run(r, u, r.guards, helpers) == Ok(fired)
    ensures FindingsOf(r, Seen(r.scope, u), helpers, fired, at)
  {
    GuardsPreserveMeaning(r, u, helpers);
    SeenIsVisited(r.scope, u);
    var visits, seen := Visits(r.scope, u).value, Seen(r.scope, u);
    at := FindingsUpTo(r, visits, seen, helpers, |visits|);
    assert seen[..|visits|] == seen;
  }

  /** A condition that gives no answer on some element fails the rule. */
  lemma {:induction false} RunFails(r: Rule, u: Universe, helpers: Helpers, i: nat)
    requires i < |Seen(r.scope, u)| && r.guards == TypeGuards(r.scope, r.cond)
    requires !Eval(r.cond, Seen(r.scope, u)[i].1, helpers).BoolV?
    ensures Run(r, u, r.guards, helpers).Err?
  {
    if Run(r, u, r.guards, helpers).Ok? {
      var at := RunReports(r, u, helpers, Run(r, u, r.guards, helpers).value);
      Answered(r, Seen(r.scope, u), helpers, Run(r, u, r.guards, helpers).value, at, i);
    }
  }

  lemma {:induction false} Answered(r: Rule, seen: seq<(string, Env)>, helpers: Helpers, fired: seq<Finding>, at: seq<nat>, i: nat)
    requires FindingsOf(r, seen, helpers, fired, at) && i < |seen|
    ensures Eval(r.cond, seen[i].1, helpers).BoolV?
  {
    if i in at {
      var k :| 0 <= k < |at| && at[k] == i;
      assert FoundOn(r, seen[at[k]], helpers, fired[k]);
    }
  }

  /** A scope the engine does not know is an error. */
  lemma UnknownScope(r: Rule, u: Universe, helpers: Helpers)
    requires r.scope.OtherScope?
    ensures Run(r, u, r.guards, helpers).Err?
  {}

  // ---- what the guards skip ----------------------------------------------------------------------

  /** A test of the scope variable's type, or of an edge's kind or the type of an end. */
  function FieldTest(scope: Scope, at: string): Expr {
    match scope
    case NodeScope => Select(Ident("n"), "type", false)
    case _ => if at == "kind" then Select(Ident("e"), "kind", false) else Select(Select(Ident("e"), at, false), "type", false)
  }

  /** The text an element holds there. */
  function FieldText(scope: Scope, at: string, m: map<string, Value>): Option<string> {
    match scope
    case NodeScope => TextIn(m, "type")
    case _ => if at == "kind" then TextIn(m, "kind") else if at in m && m[at].MapV? then TextIn(m[at].m, "type") else None
  }

  function TextIn(m: map<string, Value>, k: string): Option<string> {
    if k in m && m[k].StrV? then Some(m[k].s) else None
  }

  predicate Guarded(scope: Scope, at: string) {
    (scope == NodeScope && at == "type") || (scope == EdgeScope && at in {"kind", "from", "to"})
  }

  function Texts(values: seq<string>): seq<Expr> {
    if values == [] then [] else [Lit(StrV(values[0]))] + Texts(values[1..])
  }

  lemma {:induction false} TextsAreLiterals(values: seq<string>)
    ensures StringLiterals(Texts(values)) == Some(set s | s in values)
  {
    if values != [] {
      TextsAreLiterals(values[1..]);
      assert values == [values[0]] + values[1..];
      assert (set s | s in values) == {values[0]} + set s | s in values[1..];
    } else {
      assert (set s | s in values) == {};
    }
  }

  lemma {:induction false} TestIsPath(scope: Scope, at: string)
    requires Guarded(scope, at)
    ensures var v, p := if scope == NodeScope then "n" else "e", if at in {"from", "to"} then [at, "type"] else [at];
            FieldPath(v, FieldTest(scope, at)) == Some(p) && p in GuardPaths(scope)
  {
    assert [] + [at] == [at];
    assert [at] + ["type"] == [at, "type"];
  }

  /** An element whose text is not among those a leading test accepts is skipped: its condition is never
      evaluated. */
  lemma {:induction false} GuardsSkip(scope: Scope, at: string, values: seq<string>, x: string, rest: Expr, m: map<string, Value>)
    requires Guarded(scope, at) && FieldText(scope, at, m).Some?
    ensures FieldText(scope, at, m).value !in values ==>
              Excludes(TypeGuards(scope, Both(Within(FieldTest(scope, at), ListE(Texts(values))), rest)), m)
    ensures FieldText(scope, at, m).value != x ==>
              Excludes(TypeGuards(scope, Both(Equal(FieldTest(scope, at), Lit(StrV(x))), rest)), m)
  {
    var within, equal := Within(FieldTest(scope, at), ListE(Texts(values))), Equal(FieldTest(scope, at), Lit(StrV(x)));
    TestIsPath(scope, at);
    TextsAreLiterals(values);
    FirstConjunct(scope, within, rest);
    FirstConjunct(scope, equal, rest);
    var p := if at in {"from", "to"} then [at, "type"] else [at];
    TextIsAt(scope, at, m, p);
    if FieldText(scope, at, m).value !in values {
      assert Excludes1(TypeGuards(scope, Both(within, rest))[0], m);
    }
    if FieldText(scope, at, m).value != x {
      assert Excludes1(TypeGuards(scope, Both(equal, rest))[0], m);
    }
  }

  lemma {:induction false} TextIsAt(scope: Scope, at: string, m: map<string, Value>, p: seq<string>)
    requires Guarded(scope, at) && FieldText(scope, at, m).Some? && p == if at in {"from", "to"} then [at, "type"] else [at]
    ensures Guards.At(MapV(m), p) == Some(StrV(FieldText(scope, at, m).value))
  {
    assert p[1..] == if at in {"from", "to"} then ["type"] else [];
    assert ["type"][1..] == [];
  }

  lemma {:induction false} FirstConjunct(scope: Scope, c: Expr, rest: Expr)
    requires ScopeVar(scope).Some? && c.Call? && c.fn != AND && GuardOf(scope, ScopeVar(scope).value, c).Some?
    ensures TypeGuards(scope, Both(c, rest)) != []
    ensures TypeGuards(scope, Both(c, rest))[0] == GuardOf(scope, ScopeVar(scope).value, c).value
  {
    assert "_&&_" == AND && [c, rest][1..] == [rest];
    assert Conjuncts(c) == [c];
    assert Conjuncts(Both(c, rest)) == [c] + ConjunctsOf([rest]);
    assert Conjuncts(Both(c, rest))[0] == c;
  }

  // ---- the graph ---------------------------------------------------------------------------------

  /** Of the graph itself a condition reads the id and the attributes; every other field is the helpers' answer, and
      has() of one has no overload. */
  lemma {:induction false} GraphTable(x: Expr, f: string, env: Env, helpers: Helpers)
    requires Eval(x, env, helpers).GraphV?
    ensures Eval(Select(x, "id", false), env, helpers) == StrV(Eval(x, env, helpers).id)
    ensures Eval(Select(x, "attrs", false), env, helpers) == MapV(Eval(x, env, helpers).attrs)
    ensures f !in {"id", "attrs"} ==> Eval(Select(x, f, false), env, helpers) == helpers(f, [Eval(x, env, helpers)])
    ensures Eval(Select(x, f, true), env, helpers).ErrV?
  {}

  /** attr(g, k, d) reads a graph attribute, and the default where it is missing or null. */
  lemma {:induction false} GraphAttr(x: Expr, k: string, d: Value, env: Env, helpers: Helpers)
    requires Eval(x, env, helpers).GraphV? && !Stops(d)
    ensures var g := Eval(x, env, helpers);
            Eval(Call("attr", None, [x, Lit(StrV(k)), Lit(d)]), env, helpers)
            == if k in g.attrs && g.attrs[k] != NullV then g.attrs[k] else d
  {
    Operands(x, Lit(StrV(k)), Lit(d), env, helpers);
    var vals := [Eval(x, env, helpers), StrV(k), d];
    assert [] + vals == vals && vals[1..] == [StrV(k), d] && vals[1..][1..] == [d];
    assert FirstStop(vals) == FirstStop(vals[1..]) == FirstStop(vals[1..][1..]) == None;
  }
}
