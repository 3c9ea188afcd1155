/** coverRule (rules/engine.go): every element of a rule's scope is fired, silently decided, not checked
    or outside the domain, and what is silently decided stays decided whatever the missing facts are. */
module CoverRules {
  import opened Options
  import opened Sorting
  import opened Cel
  import opened Guards
  import opened Coverage

  /** What coverage adds to a rule: the facts it requires and its domain. */
  datatype Requirement = Requirement(required: seq<RequiredPath>, domain: Option<Expr>)

  datatype Verdict = Fired | OutOfDomain | NotChecked | Decided

  function Classify(r: Rule, q: Requirement, v: Visit, hits: set<string>, helpers: Helpers): Verdict {
    if v.id in hits then Fired
    else if q.required == [] then Decided
    else
      var inDomain := if q.domain.None? then Ok(true) else EvalBool(q.domain.value, v.env, helpers);
      if inDomain.Err? then NotChecked
      else if !inDomain.value then OutOfDomain
      else
        var missing := UndeclaredPaths(q.required, v.env);
        if missing == [] || !DependsOn(r.cond, v.env, missing, helpers) then Decided else NotChecked
  }

  function Hits(fired: seq<Finding>): set<string> {
    set f | f in fired :: f.elementId
  }

  /** The ids of the first n visits with the verdict, in order. */
  function IdsWith(r: Rule, q: Requirement, visits: seq<Visit>, hits: set<string>, helpers: Helpers, verdict: Verdict, n: nat): seq<string>
    requires n <= |visits|
  {
    if n == 0 then []
    else
      var rest := IdsWith(r, q, visits, hits, helpers, verdict, n - 1);
      if Classify(r, q, visits[n - 1], hits, helpers) == verdict then rest + [visits[n - 1].id] else rest
  }

  function CountOf(r: Rule, q: Requirement, u: Universe, hits: set<string>, helpers: Helpers, verdict: Verdict): nat {
    match Visits(r.scope, u)
    case Err(_) => 0
    case Ok(visits) => |IdsWith(r, q, visits, hits, helpers, verdict, |visits|)|
  }

  /** What the pass does with one element. */
  method JudgeElement(r: Rule, q: Requirement, v: Visit, hits: set<string>, helpers: Helpers) returns (verdict: Verdict)
    ensures verdict == Classify(r, q, v, hits, helpers)
  {
    if v.id in hits {
      return Fired;
    }
    if |q.required| == 0 {
      return Decided;
    }
    var inside, failed := true, false;
    if q.domain.Some? {
      var d := EvalBool(q.domain.value, v.env, helpers);
      inside, failed := d.Ok? && d.value, d.Err?;
    }
    if failed {
      return NotChecked;
    }
    if !inside {
      return OutOfDomain;
    }
    var missing := UndeclaredPaths(q.required, v.env);
    if |missing| == 0 || !DependsOn(r.cond, v.env, missing, helpers) {
      return Decided;
    }
    return NotChecked;
  }

  /** coverRule, for a rule that ran without error and fired as given. */
  method CoverRule(r: Rule, q: Requirement, u: Universe, fired: seq<Finding>, helpers: Helpers)
    returns (decided: nat, notChecked: seq<string>)
    ensures decided == |Hits(fired)| + CountOf(r, q, u, Hits(fired), helpers, Decided)
    ensures Sorted(notChecked) && |notChecked| == CountOf(r, q, u, Hits(fired), helpers, NotChecked)
    ensures Visits(r.scope, u).Ok? ==>
              var visits := Visits(r.scope, u).value;
              multiset(notChecked) == multiset(IdsWith(r, q, visits, Hits(fired), helpers, NotChecked, |visits|))
  {
    var hits := Hits(fired);
    decided, notChecked := |hits|, [];
    var all := Visits(r.scope, u);
    if all.Err? {
      return;
    }
    var visits := all.value;
    for i := 0 to |visits|
      invariant decided == |hits| + |IdsWith(r, q, visits, hits, helpers, Decided, i)|
      invariant notChecked == IdsWith(r, q, visits, hits, helpers, NotChecked, i)
    {
      var verdict := JudgeElement(r, q, visits[i], hits, helpers);
      if verdict == Decided {
        decided := decided + 1;
      } else if verdict == NotChecked {
        notChecked := notChecked + [visits[i].id];
      }
    }
    SameSize(notChecked, SortStrings(notChecked));
    notChecked := SortStrings(notChecked);
  }

  lemma SameSize(a: seq<string>, b: seq<string>)
    requires multiset(a) == multiset(b)
    ensures |a| == |b|
  {
    assert |multiset(a)| == |a| && |multiset(b)| == |b|;
  }

  // ---- the verdicts partition the scope ----------------------------------------------------------

  predicate DistinctIds(visits: seq<Visit>) {
    forall i, j | 0 <= i < j < |visits| :: visits[i].id != visits[j].id
  }

  lemma {:induction false} VerdictsAddUp(r: Rule, q: Requirement, visits: seq<Visit>, hits: set<string>, helpers: Helpers, n: nat)
    requires n <= |visits|
    ensures |IdsWith(r, q, visits, hits, helpers, Fired, n)| + |IdsWith(r, q, visits, hits, helpers, OutOfDomain, n)|
            + |IdsWith(r, q, visits, hits, helpers, NotChecked, n)| + |IdsWith(r, q, visits, hits, helpers, Decided, n)| == n
  {
    if n > 0 {
      VerdictsAddUp(r, q, visits, hits, helpers, n - 1);
    }
  }

  function FirstIds(visits: seq<Visit>, n: nat): set<string>
    requires n <= |visits|
  {
    if n == 0 then {} else FirstIds(visits, n - 1) + {visits[n - 1].id}
  }

  lemma FiredIffHit(r: Rule, q: Requirement, v: Visit, hits: set<string>, helpers: Helpers)
    ensures Classify(r, q, v, hits, helpers) == Fired <==> v.id in hits
  {}

  lemma {:induction false} FreshId(visits: seq<Visit>, n: nat, k: nat)
    requires DistinctIds(visits) && n <= k < |visits|
    ensures visits[k].id !in FirstIds(visits, n)
  {
    if n > 0 {
      FreshId(visits, n - 1, k);
    }
  }

  function IdsIn(visits: seq<Visit>, hits: set<string>, n: nat): seq<string>
    requires n <= |visits|
  {
    if n == 0 then []
    else IdsIn(visits, hits, n - 1) + if visits[n - 1].id in hits then [visits[n - 1].id] else []
  }

  lemma {:induction false} FiredIds(r: Rule, q: Requirement, visits: seq<Visit>, hits: set<string>, helpers: Helpers, n: nat)
    requires n <= |visits|
    ensures IdsWith(r, q, visits, hits, helpers, Fired, n) == IdsIn(visits, hits, n)
  {
    if n > 0 {
      FiredIds(r, q, visits, hits, helpers, n - 1);
      FiredIffHit(r, q, visits[n - 1], hits, helpers);
    }
  }

  lemma {:induction false} HitsAmong(visits: seq<Visit>, hits: set<string>, n: nat)
    requires DistinctIds(visits) && n <= |visits|
    ensures |IdsIn(visits, hits, n)| == |hits * FirstIds(visits, n)|
  {
    if n == 0 {
      assert hits * {} == {};
    } else {
      HitsAmong(visits, hits, n - 1);
      FreshId(visits, n - 1, n - 1);
      MeetOneMore(hits, FirstIds(visits, n - 1), visits[n - 1].id);
    }
  }

  lemma MeetOneMore(hits: set<string>, ids: set<string>, id: string)
    requires id !in ids
    ensures |hits * (ids + {id})| == |hits * ids| + if id in hits then 1 else 0
  {
    if id in hits {
      assert hits * (ids + {id}) == hits * ids + {id};
    } else {
      assert hits * (ids + {id}) == hits * ids;
    }
  }

  /** Decided (fired included), not checked and out of domain account for every element exactly once. */
  lemma {:induction false} CoveragePartitions(r: Rule, q: Requirement, u: Universe, fired: seq<Finding>, helpers: Helpers)
    requires Visits(r.scope, u).Ok? && DistinctIds(Visits(r.scope, u).value)
    requires Run(r, u, r.guards, helpers) == Ok(fired)
    ensures |Visits(r.scope, u).value|
            == |Hits(fired)| + CountOf(r, q, u, Hits(fired), helpers, Decided)
               + CountOf(r, q, u, Hits(fired), helpers, NotChecked) + CountOf(r, q, u, Hits(fired), helpers, OutOfDomain)
  {
    var visits := Visits(r.scope, u).value;
    VerdictsAddUp(r, q, visits, Hits(fired), helpers, |visits|);
    FiredIds(r, q, visits, Hits(fired), helpers, |visits|);
    HitsAmong(visits, Hits(fired), |visits|);
    FindingsAreOfVisits(r, visits, r.guards, helpers, |visits|);
    assert Hits(fired) * FirstIds(visits, |visits|) == Hits(fired);
  }

  lemma {:induction false} FindingsAreOfVisits(r: Rule, visits: seq<Visit>, guards: seq<Guard>, helpers: Helpers, n: nat)
    requires n <= |visits| && RunUpTo(r, visits, guards, helpers, n).Ok?
    ensures Hits(RunUpTo(r, visits, guards, helpers, n).value) <= FirstIds(visits, n)
  {
    if n > 0 {
      FindingsAreOfVisits(r, visits, guards, helpers, n - 1);
    }
  }

  // ---- coverage is sound -------------------------------------------------------------------------

  /** Where a rule ran without error and reported nothing on an element, its condition was false. */
  lemma {:induction false} SilentIsFalse(r: Rule, visits: seq<Visit>, helpers: Helpers, n: nat, i: nat)
    requires i < n <= |visits| && RunUpTo(r, visits, [], helpers, n).Ok?
    requires visits[i].id !in Hits(RunUpTo(r, visits, [], helpers, n).value)
    ensures Eval(r.cond, visits[i].env, helpers) == BoolV(false)
  {
    if i < n - 1 {
      SilentIsFalse(r, visits, helpers, n - 1, i);
    }
  }

  /** An element of the domain that is counted decided without having fired: its condition is false, and
      stays false for every value its undeclared required facts could take on the scope variable. */
  lemma {:induction false} CoverageIsSound(r: Rule, q: Requirement, u: Universe, fired: seq<Finding>, helpers: Helpers,
                                           i: nat, vals: seq<Value>)
    requires Visits(r.scope, u).Ok? && i < |Visits(r.scope, u).value|
    requires r.guards == TypeGuards(r.scope, r.cond) && Run(r, u, r.guards, helpers) == Ok(fired)
    requires Literate(r.cond) && Monotone(helpers) && forall p | p in q.required :: WellFormed(r.scope, p)
    requires var v := Visits(r.scope, u).value[i];
             ConcreteEnv(v.env) && Classify(r, q, v, Hits(fired), helpers) == Decided
             && |vals| == |UndeclaredPaths(q.required, v.env)|
    ensures var v := Visits(r.scope, u).value[i];
            Eval(r.cond, v.env, helpers) == BoolV(false)
            && Eval(r.cond, WithFacts(v.env, UndeclaredPaths(q.required, v.env), vals), helpers) == BoolV(false)
  {
    var visits := Visits(r.scope, u).value;
    GuardsPreserveMeaning(r, u, helpers);
    SilentIsFalse(r, visits, helpers, |visits|, i);
    var missing := UndeclaredPaths(q.required, visits[i].env);
    if missing != [] {
      IndependentIsFalse(r.scope, r.cond, visits[i].env, missing, vals, helpers);
    }
  }
}
