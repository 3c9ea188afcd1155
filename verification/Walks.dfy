/** Directed walks over a list of arrows, and the breadth-first searches of rules/cel.go that decide
    reachability over adjacency lists. */
module Walks {

  type Arrow = (string, string)

  type Adjacency = map<string, seq<string>>

  function Reverse(arrows: seq<Arrow>): (r: seq<Arrow>)
    ensures |r| == |arrows| && forall i | 0 <= i < |arrows| :: r[i] == (arrows[i].1, arrows[i].0)
  {
    seq(|arrows|, i requires 0 <= i < |arrows| => (arrows[i].1, arrows[i].0))
  }

  /** The targets of the arrows leaving a, in order. */
  function Targets(arrows: seq<Arrow>, a: string): seq<string> {
    if arrows == [] then []
    else
      var rest := Targets(arrows[..|arrows| - 1], a);
      var last := arrows[|arrows| - 1];
      if last.0 == a then rest + [last.1] else rest
  }

  /** A Go map lookup of a slice: nil when the key is absent. */
  function At(adj: Adjacency, a: string): seq<string> {
    if a in adj then adj[a] else []
  }

  /** The adjacency lists of the arrows, by source. */
  ghost predicate Lists(adj: Adjacency, arrows: seq<Arrow>) {
    forall a :: At(adj, a) == Targets(arrows, a)
  }

  lemma {:induction false} TargetsHas(arrows: seq<Arrow>, a: string, b: string)
    ensures b in Targets(arrows, a) <==> (a, b) in arrows
  {
    if arrows != [] {
      var rest, last := arrows[..|arrows| - 1], arrows[|arrows| - 1];
      assert arrows == rest + [last];
      TargetsHas(rest, a, b);
    }
  }

  lemma ReverseHas(arrows: seq<Arrow>, a: string, b: string)
    ensures (b, a) in Reverse(arrows) <==> (a, b) in arrows
  {
    if (b, a) in Reverse(arrows) {
      var i :| 0 <= i < |arrows| && Reverse(arrows)[i] == (b, a);
      assert arrows[i] == (a, b);
    }
    if (a, b) in arrows {
      var i :| 0 <= i < |arrows| && arrows[i] == (a, b);
      assert Reverse(arrows)[i] == (b, a);
    }
  }

  /** The two adjacency maps of one list of arrows are transposes of each other. */
  lemma Transposed(arrows: seq<Arrow>, fwd: Adjacency, bwd: Adjacency, a: string, b: string)
    requires Lists(fwd, arrows) && Lists(bwd, Reverse(arrows))
    ensures b in At(fwd, a) <==> a in At(bwd, b)
  {
    TargetsHas(arrows, a, b);
    TargetsHas(Reverse(arrows), b, a);
    ReverseHas(arrows, a, b);
  }

  // ---- walks -------------------------------------------------------------------------------------

  /** Which nodes a walk may enter; the node it starts from is not checked. */
  datatype Gate = Anywhere | Only(open: set<string>)
  {
    predicate Lets(x: string) {
      Anywhere? || x in open
    }
  }

  predicate Hop(arrows: seq<Arrow>, gate: Gate, a: string, b: string) {
    (a, b) in arrows && gate.Lets(b)
  }

  predicate Walk(arrows: seq<Arrow>, gate: Gate, p: seq<string>) {
    p != [] && forall i | 0 < i < |p| :: Hop(arrows, gate, p[i - 1], p[i])
  }

  ghost predicate Reaches(arrows: seq<Arrow>, gate: Gate, a: string, b: string) {
    exists p :: Walk(arrows, gate, p) && p[0] == a && p[|p| - 1] == b
  }

  lemma ReachesSelf(arrows: seq<Arrow>, gate: Gate, a: string)
    ensures Reaches(arrows, gate, a, a)
  {
    assert Walk(arrows, gate, [a]);
  }

  lemma ReachesOneMore(arrows: seq<Arrow>, gate: Gate, a: string, b: string, c: string)
    requires Reaches(arrows, gate, a, b) && Hop(arrows, gate, b, c)
    ensures Reaches(arrows, gate, a, c)
  {
    var p :| Walk(arrows, gate, p) && p[0] == a && p[|p| - 1] == b;
    assert Walk(arrows, gate, p + [c]);
    assert (p + [c])[|p|] == c;
  }

  lemma ReachesOneBefore(arrows: seq<Arrow>, gate: Gate, a: string, b: string, c: string)
    requires Hop(arrows, gate, a, b) && Reaches(arrows, gate, b, c)
    ensures Reaches(arrows, gate, a, c)
  {
    var p :| Walk(arrows, gate, p) && p[0] == b && p[|p| - 1] == c;
    var q := [a] + p;
    forall i | 0 < i < |q| ensures Hop(arrows, gate, q[i - 1], q[i]) {
      if i > 1 {
        assert q[i - 1] == p[i - 2] && q[i] == p[i - 1];
        assert Hop(arrows, gate, p[i - 2], p[i - 1]);
      }
    }
    assert q[|q| - 1] == p[|p| - 1];
  }

  /** What a set closed under hops holds, every walk from inside it stays in. */
  lemma {:induction false} ClosedHoldsWalks(arrows: seq<Arrow>, gate: Gate, s: set<string>, p: seq<string>)
    requires Walk(arrows, gate, p) && p[0] in s
    requires forall a, b | a in s && Hop(arrows, gate, a, b) :: b in s
    ensures p[|p| - 1] in s
    decreases |p|
  {
    if |p| > 1 {
      var rest := p[..|p| - 1];
      forall i | 0 < i < |rest| ensures Hop(arrows, gate, rest[i - 1], rest[i]) {
        assert Hop(arrows, gate, p[i - 1], p[i]);
      }
      ClosedHoldsWalks(arrows, gate, s, rest);
      assert Hop(arrows, gate, p[|p| - 2], p[|p| - 1]);
    }
  }

  /** A walk followed forwards in an unrestricted graph is a walk followed backwards in its reverse. */
  lemma {:induction false} ReverseReaches(arrows: seq<Arrow>, a: string, b: string)
    requires Reaches(arrows, Anywhere, a, b)
    ensures Reaches(Reverse(arrows), Anywhere, b, a)
  {
    var p :| Walk(arrows, Anywhere, p) && p[0] == a && p[|p| - 1] == b;
    var n := |p|;
    var q := seq(n, i requires 0 <= i < n => p[n - 1 - i]);
    forall i | 0 < i < |q| ensures Hop(Reverse(arrows), Anywhere, q[i - 1], q[i]) {
      assert Hop(arrows, Anywhere, p[n - 1 - i], p[n - i]);
      ReverseHas(arrows, p[n - 1 - i], p[n - i]);
    }
    assert Walk(Reverse(arrows), Anywhere, q);
  }

  lemma {:induction false} ReverseTwice(arrows: seq<Arrow>)
    ensures Reverse(Reverse(arrows)) == arrows
  {}

  lemma ReverseReachesIff(arrows: seq<Arrow>, a: string, b: string)
    ensures Reaches(arrows, Anywhere, a, b) <==> Reaches(Reverse(arrows), Anywhere, b, a)
  {
    if Reaches(arrows, Anywhere, a, b) {
      ReverseReaches(arrows, a, b);
    }
    if Reaches(Reverse(arrows), Anywhere, b, a) {
      ReverseReaches(Reverse(arrows), b, a);
      ReverseTwice(arrows);
    }
  }

  /** Two walks that meet make one walk through the meeting point. */
  lemma {:induction false} ReachesThrough(arrows: seq<Arrow>, a: string, v: string, b: string)
    ensures Reaches(arrows, Anywhere, a, v) && Reaches(arrows, Anywhere, v, b) <==>
            exists p :: Walk(arrows, Anywhere, p) && p[0] == a && p[|p| - 1] == b && v in p
  {
    if Reaches(arrows, Anywhere, a, v) && Reaches(arrows, Anywhere, v, b) {
      var p :| Walk(arrows, Anywhere, p) && p[0] == a && p[|p| - 1] == v;
      var q :| Walk(arrows, Anywhere, q) && q[0] == v && q[|q| - 1] == b;
      var r := p + q[1..];
      forall i | 0 < i < |r| ensures Hop(arrows, Anywhere, r[i - 1], r[i]) {
        if i < |p| {
          assert Hop(arrows, Anywhere, p[i - 1], p[i]);
        } else {
          var j := i - |p| + 1;
          assert Hop(arrows, Anywhere, q[j - 1], q[j]);
        }
      }
      assert r[|p| - 1] == v;
      assert Walk(arrows, Anywhere, r) && r[0] == a && r[|r| - 1] == b && v in r;
    }
    if exists p :: Walk(arrows, Anywhere, p) && p[0] == a && p[|p| - 1] == b && v in p {
      var p :| Walk(arrows, Anywhere, p) && p[0] == a && p[|p| - 1] == b && v in p;
      var i :| 0 <= i < |p| && p[i] == v;
      var head, tail := p[..i + 1], p[i..];
      forall j | 0 < j < |head| ensures Hop(arrows, Anywhere, head[j - 1], head[j]) {
        assert Hop(arrows, Anywhere, p[j - 1], p[j]);
      }
      forall j | 0 < j < |tail| ensures Hop(arrows, Anywhere, tail[j - 1], tail[j]) {
        assert Hop(arrows, Anywhere, p[i + j - 1], p[i + j]);
      }
      assert Walk(arrows, Anywhere, head) && head[0] == a && head[|head| - 1] == v;
      assert Walk(arrows, Anywhere, tail) && tail[0] == v && tail[|tail| - 1] == b;
    }
  }

  // ---- the searches ------------------------------------------------------------------------------

  /** s is the set of nodes reachable from start. */
  ghost predicate IsReach(arrows: seq<Arrow>, gate: Gate, start: string, s: set<string>) {
    forall x :: x in s <==> Reaches(arrows, gate, start, x)
  }

  function Ends(arrows: seq<Arrow>): set<string> {
    set i | 0 <= i < |arrows| :: arrows[i].1
  }

  lemma ClosedIsReach(arrows: seq<Arrow>, gate: Gate, start: string, s: set<string>)
    requires start in s && forall x | x in s :: Reaches(arrows, gate, start, x)
    requires forall a, b | a in s && Hop(arrows, gate, a, b) :: b in s
    ensures IsReach(arrows, gate, start, s)
  {
    forall x | Reaches(arrows, gate, start, x) ensures x in s {
      var p :| Walk(arrows, gate, p) && p[0] == start && p[|p| - 1] == x;
      ClosedHoldsWalks(arrows, gate, s, p);
    }
  }

  /** bfs and the loop of avoidingWalk: the queue search from start over adjacency lists, entering only
      what the gate lets in. */
  method Search(start: string, adj: Adjacency, gate: Gate, ghost arrows: seq<Arrow>) returns (seen: set<string>)
    requires Lists(adj, arrows)
    ensures IsReach(arrows, gate, start, seen)
  {
    seen := {start};
    var queue := [start];
    ReachesSelf(arrows, gate, start);
    ghost var all := {start} + Ends(arrows);
    while queue != []
      invariant start in seen && seen <= all
      invariant forall x | x in queue :: x in seen
      invariant forall x | x in seen :: Reaches(arrows, gate, start, x)
      invariant forall a, b | a in seen && a !in queue && Hop(arrows, gate, a, b) :: b in seen
      decreases all - seen, |queue|
    {
      var cur := queue[0];
      assert queue == [cur] + queue[1..];
      seen, queue := Enter(start, cur, At(adj, cur), seen, queue[1..], gate, arrows);
      forall b | Hop(arrows, gate, cur, b) ensures b in seen {
        TargetsHas(arrows, cur, b);
      }
    }
    ClosedIsReach(arrows, gate, start, seen);
  }

  /** One step of the search: the new targets the gate lets in are seen and queued. */
  method Enter(ghost start: string, cur: string, nexts: seq<string>, seen0: set<string>, queue0: seq<string>, gate: Gate,
               ghost arrows: seq<Arrow>)
    returns (seen: set<string>, queue: seq<string>)
    requires nexts == Targets(arrows, cur) && Reaches(arrows, gate, start, cur)
    requires forall x | x in queue0 :: x in seen0
    requires forall x | x in seen0 :: Reaches(arrows, gate, start, x)
    ensures seen0 <= seen <= seen0 + Ends(arrows)
    ensures queue0 <= queue && (seen == seen0 ==> queue == queue0)
    ensures forall x :: x in queue <==> x in queue0 || x in seen - seen0
    ensures forall x | x in seen :: Reaches(arrows, gate, start, x)
    ensures forall b | b in nexts && gate.Lets(b) :: b in seen
  {
    seen, queue := seen0, queue0;
    for i := 0 to |nexts|
      invariant seen0 <= seen <= seen0 + Ends(arrows)
      invariant queue0 <= queue && (seen == seen0 ==> queue == queue0)
      invariant forall x :: x in queue <==> x in queue0 || x in seen - seen0
      invariant forall x | x in seen :: Reaches(arrows, gate, start, x)
      invariant forall j | 0 <= j < i && gate.Lets(nexts[j]) :: nexts[j] in seen
    {
      var next := nexts[i];
      TargetsHas(arrows, cur, next);
      if next !in seen && gate.Lets(next) {
        ReachesOneMore(arrows, gate, start, cur, next);
        EndsHas(arrows, cur, next);
        seen := seen + {next};
        queue := queue + [next];
      }
    }
  }

  lemma EndsHas(arrows: seq<Arrow>, a: string, b: string)
    requires (a, b) in arrows
    ensures b in Ends(arrows)
  {
    var i :| 0 <= i < |arrows| && arrows[i] == (a, b);
  }

  /** The reverse walk of upstreamWalk: from the target back over the inbound lists. A source is any
      predecessor of an open node; only what the gate lets in is opened further. */
  method SearchBack(target: string, back: Adjacency, gate: Gate, ghost arrows: seq<Arrow>) returns (sources: set<string>)
    requires Lists(back, Reverse(arrows))
    ensures forall x :: x in sources <==> Reaches(arrows, gate, x, target)
  {
    ReachesSelf(arrows, gate, target);
    if !gate.Lets(target) {
      forall x | Reaches(arrows, gate, x, target) ensures x == target {
        var p :| Walk(arrows, gate, p) && p[0] == x && p[|p| - 1] == target;
        assert |p| > 1 ==> Hop(arrows, gate, p[|p| - 2], p[|p| - 1]);
      }
      return {target};
    }
    ghost var open;
    sources, open := OpenBack(target, back, gate, arrows);
    forall x | Reaches(arrows, gate, x, target) ensures x in sources {
      var p :| Walk(arrows, gate, p) && p[0] == x && p[|p| - 1] == target;
      BackwardsInside(arrows, gate, sources, open, p, target);
    }
  }

  method OpenBack(target: string, back: Adjacency, gate: Gate, ghost arrows: seq<Arrow>)
    returns (sources: set<string>, ghost inside: set<string>)
    requires Lists(back, Reverse(arrows)) && gate.Lets(target)
    ensures target in inside && inside <= sources
    ensures forall x | x in sources :: Reaches(arrows, gate, x, target)
    ensures forall a, b | b in inside && (a, b) in arrows :: a in sources
    ensures forall x | x in sources && gate.Lets(x) :: x in inside
  {
    sources := {target};
    ReachesSelf(arrows, gate, target);
    var open := {target};
    var queue := [target];
    ghost var all := {target} + Ends(Reverse(arrows));
    while queue != []
      invariant target in open && open <= sources <= all
      invariant forall x | x in queue :: x in open
      invariant forall x | x in open :: gate.Lets(x)
      invariant forall x | x in sources :: Reaches(arrows, gate, x, target)
      invariant forall a, b | b in open && b !in queue && (a, b) in arrows :: a in sources
      invariant forall x | x in sources && gate.Lets(x) :: x in open
      decreases all - open, |queue|
    {
      var cur := queue[0];
      assert queue == [cur] + queue[1..];
      sources, open, queue := OpenPredecessors(target, cur, At(back, cur), sources, open, queue[1..], gate, arrows);
      forall a | (a, cur) in arrows ensures a in sources {
        TargetsHas(Reverse(arrows), cur, a);
        ReverseHas(arrows, a, cur);
      }
    }
    inside := open;
  }

  /** One step of the reverse walk: every predecessor of cur is a source, and the new ones the gate lets
      in are opened and queued. */
  method OpenPredecessors(ghost target: string, cur: string, prevs: seq<string>, sources0: set<string>, open0: set<string>,
                          queue0: seq<string>, gate: Gate, ghost arrows: seq<Arrow>)
    returns (sources: set<string>, open: set<string>, queue: seq<string>)
    requires prevs == Targets(Reverse(arrows), cur) && gate.Lets(cur) && Reaches(arrows, gate, cur, target)
    requires open0 <= sources0 && forall x | x in sources0 && gate.Lets(x) :: x in open0
    requires (forall x | x in queue0 :: x in open0) && forall x | x in open0 :: gate.Lets(x)
    requires forall x | x in sources0 :: Reaches(arrows, gate, x, target)
    ensures sources0 <= sources <= sources0 + Ends(Reverse(arrows))
    ensures open0 <= open <= sources && forall x | x in sources && gate.Lets(x) :: x in open
    ensures (forall x | x in queue :: x in open) && forall x | x in open :: gate.Lets(x)
    ensures forall x | x in sources :: Reaches(arrows, gate, x, target)
    ensures forall j | 0 <= j < |prevs| :: prevs[j] in sources
    ensures queue0 <= queue && (forall x | x in open - open0 :: x in queue) && (open == open0 ==> queue == queue0)
  {
    sources, open, queue := sources0, open0, queue0;
    for i := 0 to |prevs|
      invariant sources0 <= sources <= sources0 + Ends(Reverse(arrows))
      invariant open0 <= open <= sources && forall x | x in sources && gate.Lets(x) :: x in open
      invariant (forall x | x in queue :: x in open) && forall x | x in open :: gate.Lets(x)
      invariant forall x | x in sources :: Reaches(arrows, gate, x, target)
      invariant forall j | 0 <= j < i :: prevs[j] in sources
      invariant queue0 <= queue && (forall x | x in open - open0 :: x in queue) && (open == open0 ==> queue == queue0)
    {
      var p := prevs[i];
      Predecessor(arrows, gate, cur, p, target);
      sources := sources + {p};
      if p !in open && gate.Lets(p) {
        open := open + {p};
        queue := queue + [p];
      }
    }
  }

  lemma Predecessor(arrows: seq<Arrow>, gate: Gate, cur: string, p: string, target: string)
    requires p in Targets(Reverse(arrows), cur) && gate.Lets(cur) && Reaches(arrows, gate, cur, target)
    ensures p in Ends(Reverse(arrows)) && (p, cur) in arrows && Reaches(arrows, gate, p, target)
  {
    TargetsHas(Reverse(arrows), cur, p);
    ReverseHas(arrows, p, cur);
    EndsHas(Reverse(arrows), cur, p);
    ReachesOneBefore(arrows, gate, p, cur, target);
  }

  /** A walk to the target runs inside the open nodes, and starts at a source. */
  lemma {:induction false} BackwardsInside(arrows: seq<Arrow>, gate: Gate, sources: set<string>, open: set<string>,
                                           p: seq<string>, target: string)
    requires Walk(arrows, gate, p) && p[|p| - 1] == target && target in open && open <= sources
    requires forall a, b | b in open && (a, b) in arrows :: a in sources
    requires forall x | x in sources && gate.Lets(x) :: x in open
    ensures p[0] in sources
    decreases |p|
  {
    if |p| > 1 {
      var rest := p[1..];
      forall i | 0 < i < |rest| ensures Hop(arrows, gate, rest[i - 1], rest[i]) {
        assert Hop(arrows, gate, p[i], p[i + 1]);
      }
      BackwardsInside(arrows, gate, sources, open, rest, target);
      assert Hop(arrows, gate, p[0], p[1]);
    }
  }
}
