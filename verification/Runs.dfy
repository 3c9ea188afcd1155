/** Whole runs of accepted patches and imports over one model, as a state machine. */
module Runs {
  import opened Pointers
  import opened Sidecar
  import opened Fold
  import opened Stamping
  import opened Imports
  import opened ImportBounds

  datatype Step =
    | Patch(next: Model, actor: string, at: int)
    | Import(carried: seq<Pointer>, rewritten: set<Pointer>, entry: Entry)

  /** The invariant of a stored model: ids are unique and every sidecar key resolves. */
  predicate Sound(m: Model) {
    m.Unique() && AllResolve(m)
  }

  /** One accepted change takes m to after: a patch that left the sidecar alone and was stamped, or an
      import of pointers the model holds. */
  ghost predicate Takes(m: Model, step: Step, limit: nat, after: Model) {
    match step
    case Patch(next, actor, at) =>
      next.Unique() && KeepsSidecar(m, next) && Stamped(m, next, actor, at, limit, after)
    case Import(carried, rewritten, e) =>
      (forall c | c in carried :: Resolves(m, c)) && Accepts(m, carried, rewritten, e, limit, after)
  }

  lemma {:induction false} SyncUnique(prov: Provenance, nodes: seq<Element>)
    requires UniqueIds(nodes)
    ensures UniqueIds(SyncNodes(prov, nodes))
  {}

  lemma {:induction false} MergedResolves(m: Model, carried: seq<Pointer>, rewritten: set<Pointer>, e: Entry)
    requires AllResolve(m) && forall c | c in carried :: Resolves(m, c)
    ensures AllResolve(m.(prov := Merged(m.prov, carried, rewritten, e)))
  {
    var merged := Merged(m.prov, carried, rewritten, e);
    forall k | k in merged ensures Resolves(m.(prov := merged), k) {
      MergedKey(m.prov, carried, rewritten, e, |carried|, k);
      ResolutionIgnoresSidecar(m, merged, k);
    }
  }

  lemma {:induction false} CompactedSyncedSound(m: Model, limit: nat, c: Provenance)
    requires Sound(m) && Compacted(m, limit, c)
    ensures Sound(Synced(m.(prov := c)))
  {
    CompactKeepsResolving(m, limit, c);
    SyncUnique(c, m.nodes);
    forall k | k in c ensures Resolves(Synced(m.(prov := c)), k) {
      SyncResolves(m.(prov := c), k);
    }
  }

  /** Every step keeps the model sound. */
  lemma {:induction false} StepKeepsSound(m: Model, step: Step, limit: nat, after: Model)
    requires Sound(m) && Takes(m, step, limit, after)
    ensures Sound(after)
  {
    match step
    case Patch(next, actor, at) =>
      StampResolves(m, next, actor, at, limit, after);
      SyncUnique(after.prov, next.nodes);
      StampedNodes(m, next, actor, at, limit, after);
    case Import(carried, rewritten, e) =>
      MergedResolves(m, carried, rewritten, e);
      var merged := m.(prov := Merged(m.prov, carried, rewritten, e));
      var c :| Compacted(merged, limit, c) && after == Synced(merged.(prov := c));
      CompactedSyncedSound(merged, limit, c);
  }

  /** A stamped model is the patched one but for its sidecar and the sources written from it. */
  lemma {:induction false} StampedNodes(prev: Model, next: Model, actor: string, at: int, limit: nat, after: Model)
    requires Stamped(prev, next, actor, at, limit, after)
    ensures after == next.(prov := after.prov, nodes := after.nodes)
    ensures after.nodes == SyncNodes(after.prov, next.nodes)
  {
    if StaysBare(prev, next) {
      assert SyncNodes(map[], next.nodes) == next.nodes;
    }
  }

  /** p lies at or below a node, not a note, of the model. */
  predicate AtNode(m: Model, p: Pointer) {
    Resolves(m, p) && p[0] == "nodes" && !IsNote(Find(m.nodes, p[1]).value)
  }

  lemma {:induction false} StampedAtNode(prev: Model, next: Model, actor: string, at: int, limit: nat, after: Model, p: Pointer)
    requires Stamped(prev, next, actor, at, limit, after) && AtNode(after, p)
    ensures AtNode(next, p)
  {
    StampedNodes(prev, next, actor, at, limit, after);
    SyncAtNode(next, after.prov, p);
  }

  lemma {:induction false} SyncAtNode(m: Model, prov: Provenance, p: Pointer)
    requires AtNode(Synced(m.(prov := prov)), p)
    ensures AtNode(m, p)
  {
    SyncResolves(m.(prov := prov), p);
    ResolutionIgnoresSidecar(m, prov, p);
    SyncFind(prov, m.nodes, p[1]);
  }

  predicate Carries(step: Step, p: Pointer) {
    step.Import? && AtOrBelowCarried(p, step.carried)
  }

  /** No step but an import that carries p or something above it raises p's kind. */
  lemma {:induction false} StepRaises(m: Model, step: Step, limit: nat, after: Model, p: Pointer)
    requires Sound(m) && Takes(m, step, limit, after) && AtNode(m, p) && AtNode(after, p)
    ensures Rank(KindOf(after, p)) <= Rank(KindOf(m, p)) || Carries(step, p)
  {
    if !Carries(step, p) {
      match step
      case Patch(next, actor, at) =>
        StampedAtNode(m, next, actor, at, limit, after, p);
        StampNeverRaises(m, next, actor, at, limit, after, p);
      case Import(carried, rewritten, e) =>
        assert !Resolves(m, ["attrs"]);
        assert !Derived(m, p);
        ImportRaisesOnlyReached(m, carried, rewritten, e, limit, after, p);
    }
  }

  ghost predicate TakesAt(states: seq<Model>, steps: seq<Step>, limit: nat, i: int) {
    0 <= i < |steps| && i + 1 < |states| && Takes(states[i], steps[i], limit, states[i + 1])
  }

  /** A run: each state follows from the one before by its step. */
  ghost predicate Run(states: seq<Model>, steps: seq<Step>, limit: nat) {
    |states| == |steps| + 1
    && forall i | 0 <= i < |steps| :: TakesAt(states, steps, limit, i)
  }

  /** Over any run every state is sound. */
  lemma {:induction false} RunKeepsSound(states: seq<Model>, steps: seq<Step>, limit: nat, n: nat)
    requires Run(states, steps, limit) && Sound(states[0]) && n < |states|
    ensures Sound(states[n])
    decreases n
  {
    if n > 0 {
      RunKeepsSound(states, steps, limit, n - 1);
      assert TakesAt(states, steps, limit, n - 1);
      StepKeepsSound(states[n - 1], steps[n - 1], limit, states[n]);
    }
  }

  function RankAt(states: seq<Model>, p: Pointer, i: nat): nat
    requires i < |states|
  {
    Rank(KindOf(states[i], p))
  }

  lemma {:induction false} RunStepRaises(states: seq<Model>, steps: seq<Step>, limit: nat, i: nat, p: Pointer)
    requires Run(states, steps, limit) && Sound(states[0]) && i < |steps|
    requires AtNode(states[i], p) && AtNode(states[i + 1], p) && !Carries(steps[i], p)
    ensures RankAt(states, p, i + 1) <= RankAt(states, p, i)
  {
    RunKeepsSound(states, steps, limit, i);
    assert TakesAt(states, steps, limit, i);
    StepRaises(states[i], steps[i], limit, states[i + 1], p);
  }

  lemma {:induction false} RunNeverRaises(states: seq<Model>, steps: seq<Step>, limit: nat, n: nat, p: Pointer)
    requires Run(states, steps, limit) && Sound(states[0]) && n < |states|
    requires forall i | 0 <= i <= n :: AtNode(states[i], p)
    requires forall i | 0 <= i < n :: !Carries(steps[i], p)
    ensures RankAt(states, p, n) <= RankAt(states, p, 0)
  {
    var ranks := RanksOf(states, p, n);
    forall i | 0 <= i < n ensures ranks[i + 1] <= ranks[i] {
      RunStepRaises(states, steps, limit, i, p);
    }
    NeverRises(ranks, n);
  }

  lemma {:induction false} NeverRises(ranks: seq<nat>, n: nat)
    requires n < |ranks| && forall i | 0 <= i < n :: ranks[i + 1] <= ranks[i]
    ensures ranks[n] <= ranks[0]
  {
    if n > 0 {
      NeverRises(ranks, n - 1);
    }
  }

  /** Over any run, a lasting pointer at or below a node ends with a stronger kind than it began with
      only if some import of the run carried it or something above it: among patches and imports, only
      an import raises a tier. */
  lemma {:induction false} OnlyImportsRaise(states: seq<Model>, steps: seq<Step>, limit: nat, n: nat, p: Pointer)
    requires Run(states, steps, limit) && Sound(states[0]) && n < |states|
    requires forall i | 0 <= i <= n :: AtNode(states[i], p)
    requires RankAt(states, p, n) > RankAt(states, p, 0)
    ensures exists i :: 0 <= i < n && Carries(steps[i], p)
  {
    if forall i | 0 <= i < n :: !Carries(steps[i], p) {
      RunNeverRaises(states, steps, limit, n, p);
    }
  }

  // ---- how far a run may raise -------------------------------------------------------------------

  /** The step is an import that carries p in pieces, or uncovers an older claim of p. */
  ghost predicate Uncovering(m: Model, step: Step, p: Pointer) {
    step.Import?
    && (!Antichain(step.carried)
        || exists c :: c in step.carried && c <= p && Uncovers(m, c, step.rewritten, step.entry, p))
  }

  /** The step is an import that carries p, of a kind at least as strong as the rank. */
  predicate LiftsTo(step: Step, p: Pointer, rank: nat) {
    Carries(step, p) && rank <= Rank(step.entry.kind)
  }

  /** A step that uncovers nothing lifts a lasting pointer no further than to the kind of the import. */
  lemma {:induction false} StepLiftsAtMost(m: Model, step: Step, limit: nat, after: Model, p: Pointer)
    requires Sound(m) && Takes(m, step, limit, after) && AtNode(m, p) && AtNode(after, p) && !Uncovering(m, step, p)
    ensures Rank(KindOf(after, p)) <= Rank(KindOf(m, p)) || LiftsTo(step, p, Rank(KindOf(after, p)))
  {
    StepRaises(m, step, limit, after, p);
    if Carries(step, p) {
      var i :| 0 <= i < |step.carried| && step.carried[i] <= p;
      var c := step.carried[i];
      assert c in step.carried && Resolves(m, c);
      assert !Resolves(m, ["attrs"]);
      ImportLiftsIff(m, step.carried, step.rewritten, step.entry, limit, after, c, p);
    }
  }

  lemma {:induction false} RunStepLifts(states: seq<Model>, steps: seq<Step>, limit: nat, i: nat, p: Pointer)
    requires Run(states, steps, limit) && Sound(states[0]) && i < |steps|
    requires AtNode(states[i], p) && AtNode(states[i + 1], p) && !Uncovering(states[i], steps[i], p)
    ensures RankAt(states, p, i + 1) <= RankAt(states, p, i) || LiftsTo(steps[i], p, RankAt(states, p, i + 1))
  {
    RunKeepsSound(states, steps, limit, i);
    assert TakesAt(states, steps, limit, i);
    StepLiftsAtMost(states[i], steps[i], limit, states[i + 1], p);
  }

  /** Over any run whose imports uncover nothing, a lasting node pointer ends no stronger than it began, or
      than the kind of some import that carried it. */
  lemma {:induction false} RunLiftsAtMost(states: seq<Model>, steps: seq<Step>, limit: nat, n: nat, p: Pointer)
    requires Run(states, steps, limit) && Sound(states[0]) && n < |states|
    requires forall i | 0 <= i <= n :: AtNode(states[i], p)
    requires forall i | 0 <= i < n :: !Uncovering(states[i], steps[i], p)
    ensures RankAt(states, p, n) <= RankAt(states, p, 0) || exists i :: 0 <= i < n && LiftsTo(steps[i], p, RankAt(states, p, n))
  {
    var ranks := RanksOf(states, p, n);
    forall i | 0 <= i < n ensures ranks[i + 1] <= ranks[i] || LiftsTo(steps[i], p, ranks[i + 1]) {
      RunStepLifts(states, steps, limit, i, p);
    }
    LiftsAtMost(ranks, steps, n, p);
  }

  function RanksOf(states: seq<Model>, p: Pointer, n: nat): (ranks: seq<nat>)
    requires n < |states|
    ensures |ranks| == n + 1 && forall i | 0 <= i <= n :: ranks[i] == RankAt(states, p, i)
  {
    seq(n + 1, i requires 0 <= i <= n => RankAt(states, p, i))
  }

  lemma {:induction false} LiftsAtMost(ranks: seq<nat>, steps: seq<Step>, n: nat, p: Pointer)
    requires n < |ranks| && n <= |steps|
    requires forall i | 0 <= i < n :: ranks[i + 1] <= ranks[i] || LiftsTo(steps[i], p, ranks[i + 1])
    ensures ranks[n] <= ranks[0] || exists i :: 0 <= i < n && LiftsTo(steps[i], p, ranks[n])
  {
    if n > 0 {
      LiftsAtMost(ranks, steps, n - 1, p);
      if ranks[n] <= ranks[n - 1] && ranks[n] > ranks[0] {
        var i :| 0 <= i < n - 1 && LiftsTo(steps[i], p, ranks[n - 1]);
        assert LiftsTo(steps[i], p, ranks[n]);
      }
    }
  }
}
