/** The part of CEL the rule engine's shortcuts rely on: values with errors and unknowns, conditions as
    abstract syntax, and their evaluation. `&&` and `||` absorb errors and unknowns; every other
    operator is strict. The graph helpers are an uninterpreted function of their argument values. */
module Cel {
  import opened Options

  datatype Value =
    | NullV
    | BoolV(b: bool)
    | IntV(i: int)
    | StrV(s: string)
    | ListV(items: seq<Value>)
    | MapV(m: map<string, Value>)
    | GraphV(id: string, attrs: map<string, Value>, prov: Value)
    | ErrV(error: string)
    | UnknownV(n: int)

  type Env = map<string, Value>

  datatype Expr =
    | Lit(v: Value)
    | Ident(name: string)
    | Select(operand: Expr, field: string, testOnly: bool)
    | ListE(elems: seq<Expr>)
    | Call(fn: string, target: Option<Expr>, args: seq<Expr>)
    | Quantified(forAll: bool, range: Expr, bound: string, body: Expr)

  type Helpers = (string, seq<Value>) -> Value

  const AND: string := "_&&_"
  const OR: string := "_||_"
  const NOT: string := "!_"
  const EQUALS: string := "_==_"
  const IN: string := "@in"
  const CONDITIONAL: string := "_?_:_"
  const ATTR: string := "attr"

  const NO_OVERLOAD: Value := ErrV("no such overload")

  // ---- operators ---------------------------------------------------------------------------------

  /** The first unknown, else the first error, else no-overload: what an absorbing operator that no
      operand decides evaluates to. */
  function Undecided(vals: seq<Value>): Value {
    if exists i :: 0 <= i < |vals| && vals[i].UnknownV? then FirstUnknown(vals) else FirstError(vals)
  }

  function FirstUnknown(vals: seq<Value>): (r: Value)
    ensures r.UnknownV?
  {
    if vals == [] then UnknownV(0) else if vals[0].UnknownV? then vals[0] else FirstUnknown(vals[1..])
  }

  function FirstError(vals: seq<Value>): (r: Value)
    ensures r.ErrV?
  {
    if vals == [] then NO_OVERLOAD else if vals[0].ErrV? then vals[0] else FirstError(vals[1..])
  }

  /** `&&` (decider false) or `||` (decider true) over its operands. */
  function Absorb(decider: bool, vals: seq<Value>): Value {
    if BoolV(decider) in vals then BoolV(decider)
    else if forall i | 0 <= i < |vals| :: vals[i] == BoolV(!decider) then BoolV(!decider)
    else Undecided(vals)
  }

  predicate Stops(v: Value) { v.UnknownV? || v.ErrV? }

  /** A strict operator evaluates to its first unknown or error operand. */
  function FirstStop(vals: seq<Value>): Option<Value> {
    if vals == [] then None else if Stops(vals[0]) then Some(vals[0]) else FirstStop(vals[1..])
  }

  predicate Scalar(v: Value) { v.NullV? || v.BoolV? || v.IntV? || v.StrV? }

  predicate Scalars(vals: seq<Value>) { forall i | 0 <= i < |vals| :: Scalar(vals[i]) }

  /** attr(x, key, default): missing or null reads as the default. */
  function AttrOf(vals: seq<Value>): Value {
    if |vals| != 3 || !vals[1].StrV? then NO_OVERLOAD
    else
      match vals[0]
      case GraphV(_, attrs, _) => AttrIn(attrs, vals[1].s, vals[2])
      case MapV(m) =>
        AttrIn(if "attrs" in m && m["attrs"].MapV? then m["attrs"].m else map[], vals[1].s, vals[2])
      case _ => NO_OVERLOAD
  }

  function AttrIn(attrs: map<string, Value>, key: string, default: Value): Value {
    if key in attrs && attrs[key] != NullV then attrs[key] else default
  }

  /** A strict call on operand values none of which stops. */
  function Apply(fn: string, vals: seq<Value>, helpers: Helpers): Value {
    if fn == NOT && |vals| == 1 then (if vals[0].BoolV? then BoolV(!vals[0].b) else NO_OVERLOAD)
    else if fn == EQUALS && |vals| == 2 && Scalars(vals) then BoolV(vals[0] == vals[1])
    else if fn == IN && |vals| == 2 && Scalar(vals[0]) && vals[1].ListV? && Scalars(vals[1].items) then
      BoolV(vals[0] in vals[1].items)
    else if fn == ATTR then AttrOf(vals)
    else helpers(fn, vals)
  }

  function SelectFrom(v: Value, field: string, testOnly: bool, helpers: Helpers): Value {
    match v
    case MapV(m) =>
      if testOnly then BoolV(field in m)
      else if field in m then m[field] else ErrV("no such key: " + field)
    case GraphV(id, attrs, _) =>
      if testOnly then NO_OVERLOAD
      else if field == "id" then StrV(id)
      else if field == "attrs" then MapV(attrs)
      else helpers(field, [v])
    case _ => NO_OVERLOAD
  }

  // ---- evaluation --------------------------------------------------------------------------------

  function Eval(e: Expr, env: Env, helpers: Helpers): Value
    decreases e, 0
  {
    match e
    case Lit(v) => v
    case Ident(name) => if name in env then env[name] else ErrV("no such attribute: " + name)
    case Select(operand, field, testOnly) =>
      var v := Eval(operand, env, helpers);
      if Stops(v) then v else SelectFrom(v, field, testOnly, helpers)
    case ListE(elems) =>
      var vals := EvalAll(elems, env, helpers);
      if FirstStop(vals).Some? then FirstStop(vals).value else ListV(vals)
    case Call(fn, target, args) =>
      if fn == AND then Absorb(false, EvalAll(args, env, helpers))
      else if fn == OR then Absorb(true, EvalAll(args, env, helpers))
      else if fn == CONDITIONAL && |args| == 3 then
        var c := Eval(args[0], env, helpers);
        if Stops(c) then c
        else if !c.BoolV? then NO_OVERLOAD
        else if c.b then Eval(args[1], env, helpers) else Eval(args[2], env, helpers)
      else
        var vals := (if target.Some? then [Eval(target.value, env, helpers)] else []) + EvalAll(args, env, helpers);
        if FirstStop(vals).Some? then FirstStop(vals).value else Apply(fn, vals, helpers)
    case Quantified(forAll, range, bound, body) =>
      var r := Eval(range, env, helpers);
      if Stops(r) then r
      else if !r.ListV? then NO_OVERLOAD
      else Absorb(!forAll, EvalEach(body, env, bound, r.items, helpers))
  }

  function EvalAll(es: seq<Expr>, env: Env, helpers: Helpers): (vals: seq<Value>)
    ensures |vals| == |es|
    ensures forall i | 0 <= i < |es| :: vals[i] == Eval(es[i], env, helpers)
    decreases es, 0
  {
    if es == [] then [] else [Eval(es[0], env, helpers)] + EvalAll(es[1..], env, helpers)
  }

  /** The body for each item, bound to the variable. */
  function EvalEach(body: Expr, env: Env, bound: string, items: seq<Value>, helpers: Helpers): (vals: seq<Value>)
    ensures |vals| == |items|
    ensures forall i | 0 <= i < |items| :: vals[i] == Eval(body, env[bound := items[i]], helpers)
    decreases body, 1, |items|
  {
    if items == [] then []
    else [Eval(body, env[bound := items[0]], helpers)] + EvalEach(body, env, bound, items[1..], helpers)
  }

  /** evalBool: only a boolean is an answer; an unknown or an error is not. */
  function EvalBool(e: Expr, env: Env, helpers: Helpers): Result<bool, string> {
    var v := Eval(e, env, helpers);
    match v
    case BoolV(b) => Ok(b)
    case ErrV(error) => Err(error)
    case _ => Err("condition returned another type, expected bool")
  }

  // ---- refinement: what an unknown may stand for -------------------------------------------------

  /** w is v with every unknown replaced by some value. Unknowns stand for facts: never for the attrs
      member of a map as a whole, nor for an item of a list. */
  predicate Refines(v: Value, w: Value)
    decreases v
  {
    match v
    case UnknownV(_) => true
    case ListV(xs) =>
      w.ListV? && |w.items| == |xs|
      && forall i | 0 <= i < |xs| :: !xs[i].UnknownV? && Refines(xs[i], w.items[i])
    case MapV(m) =>
      w.MapV? && m.Keys == w.m.Keys && ("attrs" in m ==> !m["attrs"].UnknownV?)
      && forall k | k in m :: Refines(m[k], w.m[k])
    case GraphV(id, attrs, prov) =>
      w.GraphV? && w.id == id && w.prov == prov && attrs.Keys == w.attrs.Keys
      && ("attrs" in attrs ==> !attrs["attrs"].UnknownV?)
      && forall k | k in attrs :: Refines(attrs[k], w.attrs[k])
    case _ => v == w
  }

  predicate RefinesMap(m: map<string, Value>, m': map<string, Value>) {
    m.Keys == m'.Keys
    && ("attrs" in m ==> !m["attrs"].UnknownV?)
    && forall k | k in m :: Refines(m[k], m'[k])
  }

  predicate RefinesAll(vs: seq<Value>, ws: seq<Value>) {
    |vs| == |ws| && forall i | 0 <= i < |vs| :: Refines(vs[i], ws[i])
  }

  /** What is asked of the graph helpers: an answer given with facts unknown stands whatever they are.
      A helper that reads no fact inside its arguments meets it, as the graph walks do. */
  ghost predicate Monotone(helpers: Helpers) {
    forall fn, vs, ws | RefinesAll(vs, ws) :: Refines(helpers(fn, vs), helpers(fn, ws))
  }

  /** A value without unknowns inside refines only to itself, and does. */
  predicate Concrete(v: Value) {
    match v
    case UnknownV(_) => false
    case ListV(xs) => forall i | 0 <= i < |xs| :: Concrete(xs[i])
    case MapV(m) => forall k | k in m :: Concrete(m[k])
    case GraphV(_, attrs, _) => forall k | k in attrs :: Concrete(attrs[k])
    case _ => true
  }

  lemma ConcreteRefines(v: Value)
    requires Concrete(v)
    ensures Refines(v, v)
  {
    match v
    case ListV(xs) =>
      forall i | 0 <= i < |xs| ensures Refines(xs[i], xs[i]) { ConcreteRefines(xs[i]); }
    case MapV(m) =>
      forall k | k in m ensures Refines(m[k], m[k]) { ConcreteRefines(m[k]); }
    case GraphV(_, attrs, _) =>
      forall k | k in attrs ensures Refines(attrs[k], attrs[k]) { ConcreteRefines(attrs[k]); }
    case _ =>
  }

  /** Every literal of a condition is a concrete value. */
  predicate Literate(e: Expr)
    decreases e
  {
    match e
    case Lit(v) => Concrete(v)
    case Ident(_) => true
    case Select(operand, _, _) => Literate(operand)
    case ListE(elems) => forall i | 0 <= i < |elems| :: Literate(elems[i])
    case Call(_, target, args) =>
      (target.Some? ==> Literate(target.value)) && forall i | 0 <= i < |args| :: Literate(args[i])
    case Quantified(_, range, _, body) => Literate(range) && Literate(body)
  }

  // ---- evaluation is monotone --------------------------------------------------------------------

  lemma {:induction false} FirstStopRefines(vs: seq<Value>, ws: seq<Value>)
    requires RefinesAll(vs, ws)
    ensures FirstStop(vs).Some? && FirstStop(vs).value.ErrV? ==> FirstStop(ws) == FirstStop(vs)
    ensures FirstStop(vs).None? ==> FirstStop(ws).None?
  {
    if vs != [] {
      assert Refines(vs[0], ws[0]);
      if !Stops(vs[0]) {
        FirstStopRefines(vs[1..], ws[1..]);
      }
    }
  }

  lemma {:induction false} FirstErrorRefines(vs: seq<Value>, ws: seq<Value>)
    requires RefinesAll(vs, ws) && forall i | 0 <= i < |vs| :: !vs[i].UnknownV?
    ensures FirstError(vs) == FirstError(ws)
  {
    if vs != [] {
      assert Refines(vs[0], ws[0]);
      FirstErrorRefines(vs[1..], ws[1..]);
    }
  }

  lemma {:induction false} AbsorbRefines(decider: bool, vs: seq<Value>, ws: seq<Value>)
    requires RefinesAll(vs, ws)
    ensures Refines(Absorb(decider, vs), Absorb(decider, ws))
  {
    if BoolV(decider) in vs {
      var i :| 0 <= i < |vs| && vs[i] == BoolV(decider);
      assert Refines(vs[i], ws[i]);
      assert ws[i] == BoolV(decider);
    } else if forall i | 0 <= i < |vs| :: vs[i] == BoolV(!decider) {
      forall i | 0 <= i < |ws| ensures ws[i] == BoolV(!decider) {
        assert Refines(vs[i], ws[i]);
      }
    } else if forall i | 0 <= i < |vs| :: !vs[i].UnknownV? {
      FirstErrorRefines(vs, ws);
      forall i | 0 <= i < |vs| ensures ws[i].BoolV? || vs[i].BoolV? ==> ws[i] == vs[i] {
        assert Refines(vs[i], ws[i]);
      }
      forall i | 0 <= i < |vs| ensures !ws[i].UnknownV? {
        assert Refines(vs[i], ws[i]);
      }
      assert BoolV(decider) !in ws;
    }
  }

  lemma {:induction false} AttrInRefines(m: map<string, Value>, m': map<string, Value>, key: string, d: Value, d': Value)
    requires RefinesMap(m, m') && Refines(d, d')
    ensures Refines(AttrIn(m, key, d), AttrIn(m', key, d'))
  {
    if key in m {
      assert Refines(m[key], m'[key]);
    }
  }

  lemma {:induction false} AttrRefines(vs: seq<Value>, ws: seq<Value>)
    requires RefinesAll(vs, ws) && FirstStop(vs).None?
    ensures Refines(AttrOf(vs), AttrOf(ws))
  {
    if |vs| == 3 {
      assert Refines(vs[0], ws[0]) && Refines(vs[1], ws[1]) && Refines(vs[2], ws[2]);
      NoneStops(vs, 0);
      NoneStops(vs, 1);
      if vs[1].StrV? {
        match vs[0]
        case GraphV(_, attrs, _) =>
          AttrInRefines(attrs, ws[0].attrs, vs[1].s, vs[2], ws[2]);
        case MapV(m) =>
          if "attrs" in m {
            assert Refines(m["attrs"], ws[0].m["attrs"]);
          }
          AttrInRefines(if "attrs" in m && m["attrs"].MapV? then m["attrs"].m else map[],
                        if "attrs" in ws[0].m && ws[0].m["attrs"].MapV? then ws[0].m["attrs"].m else map[],
                        vs[1].s, vs[2], ws[2]);
        case _ =>
      }
    }
  }

  lemma {:induction false} NoneStops(vs: seq<Value>, i: nat)
    requires FirstStop(vs).None? && i < |vs|
    ensures !Stops(vs[i])
  {
    if i > 0 {
      NoneStops(vs[1..], i - 1);
    }
  }

  lemma {:induction false} ScalarsRefine(vs: seq<Value>, ws: seq<Value>)
    requires RefinesAll(vs, ws) && forall i | 0 <= i < |vs| :: !Stops(vs[i])
    ensures Scalars(vs) ==> vs == ws
    ensures Scalars(ws) ==> vs == ws
  {
    forall i | 0 <= i < |vs| ensures Scalar(vs[i]) || Scalar(ws[i]) ==> vs[i] == ws[i] {
      assert Refines(vs[i], ws[i]);
    }
  }

  lemma {:induction false} InRefines(v: Value, w: Value)
    requires v.ListV? && Refines(v, w)
    ensures w.ListV?
    ensures Scalars(v.items) || Scalars(w.items) ==> v == w
  {
    forall i | 0 <= i < |v.items| ensures Scalar(v.items[i]) || Scalar(w.items[i]) ==> v.items[i] == w.items[i] {
      assert Refines(v.items[i], w.items[i]);
    }
    if Scalars(v.items) || Scalars(w.items) {
      assert v.items == w.items;
    }
  }

  lemma {:induction false} ApplyRefines(fn: string, vs: seq<Value>, ws: seq<Value>, helpers: Helpers)
    requires Monotone(helpers) && RefinesAll(vs, ws) && FirstStop(vs).None?
    ensures Refines(Apply(fn, vs, helpers), Apply(fn, ws, helpers))
  {
    forall i | 0 <= i < |vs| ensures !Stops(vs[i]) && Refines(vs[i], ws[i]) {
      NoneStops(vs, i);
    }
    if fn == NOT && |vs| == 1 {
    } else if fn == EQUALS && |vs| == 2 {
      ScalarsRefine(vs, ws);
    } else if fn == IN && |vs| == 2 {
      if vs[1].ListV? {
        InRefines(vs[1], ws[1]);
      }
    } else if fn == ATTR {
      AttrRefines(vs, ws);
    }
  }

  lemma {:induction false} SelectRefines(v: Value, w: Value, field: string, testOnly: bool, helpers: Helpers)
    requires Monotone(helpers) && Refines(v, w) && !Stops(v)
    ensures Refines(SelectFrom(v, field, testOnly, helpers), SelectFrom(w, field, testOnly, helpers))
  {
    if v.GraphV? {
      assert RefinesAll([v], [w]);
    }
  }

  /** An environment refines another name by name. */
  predicate RefinesEnv(p: Env, c: Env) {
    p.Keys == c.Keys && forall k | k in p :: Refines(p[k], c[k])
  }

  lemma {:induction false} BindRefines(p: Env, c: Env, x: string, v: Value, w: Value)
    requires RefinesEnv(p, c) && Refines(v, w)
    ensures RefinesEnv(p[x := v], c[x := w])
  {}

  /** Partial evaluation is sound: evaluated with unknowns in place of facts, a condition yields a value
      that its evaluation with any facts refines. A concrete answer therefore stands whatever the facts. */
  lemma {:induction false} EvalRefines(e: Expr, p: Env, c: Env, helpers: Helpers)
    requires Monotone(helpers) && RefinesEnv(p, c) && Literate(e)
    ensures Refines(Eval(e, p, helpers), Eval(e, c, helpers))
    decreases e, 2
  {
    match e
    case Lit(v) => ConcreteRefines(v);
    case Ident(name) =>
    case Select(operand, field, testOnly) =>
      EvalRefines(operand, p, c, helpers);
      var v, w := Eval(operand, p, helpers), Eval(operand, c, helpers);
      if !Stops(v) {
        SelectRefines(v, w, field, testOnly, helpers);
      }
    case ListE(elems) =>
      EvalAllRefines(elems, p, c, helpers);
      ListRefines(EvalAll(elems, p, helpers), EvalAll(elems, c, helpers));
    case Call(_, _, _) => CallRefines(e, p, c, helpers);
    case Quantified(forAll, range, bound, body) =>
      EvalRefines(range, p, c, helpers);
      var r, r' := Eval(range, p, helpers), Eval(range, c, helpers);
      if r.ListV? {
        EvalEachRefines(body, p, c, bound, r.items, r'.items, helpers);
        AbsorbRefines(!forAll, EvalEach(body, p, bound, r.items, helpers), EvalEach(body, c, bound, r'.items, helpers));
      }
  }

  lemma {:induction false} CallRefines(e: Expr, p: Env, c: Env, helpers: Helpers)
    requires Monotone(helpers) && RefinesEnv(p, c) && Literate(e) && e.Call?
    ensures Refines(Eval(e, p, helpers), Eval(e, c, helpers))
    decreases e, 1
  {
    var args := e.args;
    EvalAllRefines(args, p, c, helpers);
    if e.fn == AND || e.fn == OR {
      AbsorbRefines(e.fn == OR, EvalAll(args, p, helpers), EvalAll(args, c, helpers));
    } else if e.fn == CONDITIONAL && |args| == 3 {
      EvalRefines(args[0], p, c, helpers);
      EvalRefines(args[1], p, c, helpers);
      EvalRefines(args[2], p, c, helpers);
    } else {
      if e.target.Some? {
        EvalRefines(e.target.value, p, c, helpers);
      }
      var vs := (if e.target.Some? then [Eval(e.target.value, p, helpers)] else []) + EvalAll(args, p, helpers);
      var ws := (if e.target.Some? then [Eval(e.target.value, c, helpers)] else []) + EvalAll(args, c, helpers);
      StrictRefines(e.fn, vs, ws, helpers);
    }
  }

  lemma {:induction false} StrictRefines(fn: string, vs: seq<Value>, ws: seq<Value>, helpers: Helpers)
    requires Monotone(helpers) && RefinesAll(vs, ws)
    ensures Refines(if FirstStop(vs).Some? then FirstStop(vs).value else Apply(fn, vs, helpers),
                    if FirstStop(ws).Some? then FirstStop(ws).value else Apply(fn, ws, helpers))
  {
    FirstStopRefines(vs, ws);
    FirstStopStops(vs);
    if FirstStop(vs).None? {
      ApplyRefines(fn, vs, ws, helpers);
    }
  }

  lemma {:induction false} ListRefines(vs: seq<Value>, ws: seq<Value>)
    requires RefinesAll(vs, ws)
    ensures Refines(if FirstStop(vs).Some? then FirstStop(vs).value else ListV(vs),
                    if FirstStop(ws).Some? then FirstStop(ws).value else ListV(ws))
  {
    FirstStopRefines(vs, ws);
    FirstStopStops(vs);
    if FirstStop(vs).None? {
      forall i | 0 <= i < |vs| ensures !vs[i].UnknownV? {
        NoneStops(vs, i);
      }
    }
  }

  lemma {:induction false} NothingStops(vs: seq<Value>)
    requires forall i | 0 <= i < |vs| :: !Stops(vs[i])
    ensures FirstStop(vs) == None
  {
    if vs != [] {
      NothingStops(vs[1..]);
    }
  }

  lemma {:induction false} FirstStopStops(vs: seq<Value>)
    ensures FirstStop(vs).Some? ==> Stops(FirstStop(vs).value)
  {
    if vs != [] && !Stops(vs[0]) {
      FirstStopStops(vs[1..]);
    }
  }

  lemma {:induction false} EvalAllRefines(es: seq<Expr>, p: Env, c: Env, helpers: Helpers)
    requires Monotone(helpers) && RefinesEnv(p, c) && forall i | 0 <= i < |es| :: Literate(es[i])
    ensures RefinesAll(EvalAll(es, p, helpers), EvalAll(es, c, helpers))
    decreases es, 0
  {
    forall i | 0 <= i < |es| ensures Refines(Eval(es[i], p, helpers), Eval(es[i], c, helpers)) {
      EvalRefines(es[i], p, c, helpers);
    }
  }

  lemma {:induction false} EvalEachRefines(body: Expr, p: Env, c: Env, bound: string, xs: seq<Value>, ys: seq<Value>, helpers: Helpers)
    requires Monotone(helpers) && RefinesEnv(p, c) && Literate(body) && RefinesAll(xs, ys)
    ensures RefinesAll(EvalEach(body, p, bound, xs, helpers), EvalEach(body, c, bound, ys, helpers))
    decreases body, 3
  {
    forall i | 0 <= i < |xs|
      ensures Refines(Eval(body, p[bound := xs[i]], helpers), Eval(body, c[bound := ys[i]], helpers))
    {
      assert Refines(xs[i], ys[i]);
      BindRefines(p, c, bound, xs[i], ys[i]);
      EvalRefines(body, p[bound := xs[i]], c[bound := ys[i]], helpers);
    }
  }
}
