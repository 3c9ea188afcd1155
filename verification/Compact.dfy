/** The first stage of compactProvenance (model/provenance.go): a key that repeats the claim of the
    stored key governing it from above is redundant and goes. */
module Compact {
  import opened Options
  import opened Pointers
  import opened Sidecar

  /** k repeats the claim of its nearest stored ancestor. */
  predicate Redundant(prov: Provenance, k: Pointer) {
    k in prov && |k| >= 2
    && Governor(prov.Keys, Parent(k)).Some?
    && SameClaim(prov[k], prov[Governor(prov.Keys, Parent(k)).value])
  }

  /** The key that ends up standing for k once the redundant keys of `done` are folded upwards. */
  function Rep(prov: Provenance, done: set<Pointer>, k: Pointer): Pointer
    requires k in prov
    decreases |k|
  {
    if k in done && Redundant(prov, k) then Rep(prov, done, Governor(prov.Keys, Parent(k)).value) else k
  }

  /** k is folded into a stored key at or above it that stays and makes the same claim. */
  lemma {:induction false} RepFacts(prov: Provenance, done: set<Pointer>, k: Pointer)
    requires k in prov
    ensures var r := Rep(prov, done, k);
            r in prov && r <= k && SameClaim(prov[k], prov[r]) && !(r in done && Redundant(prov, r))
    decreases |k|
  {
    if k in done && Redundant(prov, k) {
      RepFacts(prov, done, Governor(prov.Keys, Parent(k)).value);
    }
  }

  /** k stands for q. */
  predicate Stands(prov: Provenance, done: set<Pointer>, k: Pointer, q: Pointer) {
    q in prov && Rep(prov, done, q) == k
  }

  /** t is the latest declaration date among the keys that k stands for. */
  ghost predicate IsLatest(prov: Provenance, done: set<Pointer>, k: Pointer, t: Time) {
    (exists q :: Stands(prov, done, k, q) && prov[q].declaredAt == t)
    && forall q | Stands(prov, done, k, q) :: CmpTime(prov[q].declaredAt, t) <= 0
  }

  /** `after` is `before` with the redundant keys of `done` folded into what they repeat. */
  ghost predicate Folded(before: Provenance, done: set<Pointer>, after: Provenance) {
    (forall k :: k in after <==> k in before && !(k in done && Redundant(before, k)))
    && forall k | k in after :: SameClaim(after[k], before[k]) && IsLatest(before, done, k, after[k].declaredAt)
  }

  /** The whole first stage: it does not depend on the order of the keys. */
  ghost predicate Squeezed(before: Provenance, after: Provenance) {
    Folded(before, before.Keys, after)
  }

  lemma {:induction false} LatestUnique(prov: Provenance, done: set<Pointer>, k: Pointer, t: Time, u: Time)
    requires IsLatest(prov, done, k, t) && IsLatest(prov, done, k, u)
    ensures t == u
  {
    var q :| Stands(prov, done, k, q) && prov[q].declaredAt == t;
    var r :| Stands(prov, done, k, r) && prov[r].declaredAt == u;
    assert CmpTime(t, u) <= 0 && CmpTime(u, t) <= 0;
  }

  /** The first stage has exactly one outcome. */
  lemma {:induction false} SqueezedUnique(before: Provenance, x: Provenance, y: Provenance)
    requires Squeezed(before, x) && Squeezed(before, y)
    ensures x == y
  {
    assert x.Keys == y.Keys;
    forall k | k in x ensures k in y && x[k] == y[k] {
      EntryUnique(before, k, x[k], y[k]);
    }
  }

  lemma {:induction false} EntryUnique(before: Provenance, k: Pointer, x: Entry, y: Entry)
    requires k in before && SameClaim(x, before[k]) && SameClaim(y, before[k])
    requires IsLatest(before, before.Keys, k, x.declaredAt) && IsLatest(before, before.Keys, k, y.declaredAt)
    ensures x == y
  {
    LatestUnique(before, before.Keys, k, x.declaredAt, y.declaredAt);
    assert SameClaim(x, y);
  }

  // ---- one step of the loop ----------------------------------------------------------------------

  /** Folding one more redundant key moves exactly what it stood for to its governing key. */
  lemma {:induction false} RepStep(prov: Provenance, done: set<Pointer>, k: Pointer, q: Pointer)
    requires q in prov && Redundant(prov, k)
    requires Governor(prov.Keys, Parent(k)).value !in done + {k}
    ensures Rep(prov, done + {k}, q)
         == if Rep(prov, done, q) == k then Governor(prov.Keys, Parent(k)).value else Rep(prov, done, q)
    decreases |q|
  {
    if q in done && Redundant(prov, q) {
      RepStep(prov, done, k, Governor(prov.Keys, Parent(q)).value);
    }
  }

  lemma {:induction false} RepSkip(prov: Provenance, done: set<Pointer>, k: Pointer, q: Pointer)
    requires q in prov && !Redundant(prov, k)
    ensures Rep(prov, done + {k}, q) == Rep(prov, done, q)
    decreases |q|
  {
    if q in done && Redundant(prov, q) {
      RepSkip(prov, done, k, Governor(prov.Keys, Parent(q)).value);
    }
  }

  function Later(x: Time, y: Time): Time {
    if CmpTime(x, y) > 0 then x else y
  }

  lemma {:induction false} LatestStep(prov: Provenance, done: set<Pointer>, k: Pointer, pk: Pointer, t: Time, u: Time)
    requires Redundant(prov, k) && k !in done && Governor(prov.Keys, Parent(k)) == Some(pk)
    requires pk !in done
    requires IsLatest(prov, done, k, t) && IsLatest(prov, done, pk, u)
    ensures IsLatest(prov, done + {k}, pk, Later(t, u))
  {
    var done' := done + {k};
    assert pk != k;
    forall q | q in prov
      ensures Stands(prov, done', pk, q) <==> Stands(prov, done, k, q) || Stands(prov, done, pk, q)
    {
      RepStep(prov, done, k, q);
    }
    LatestUnion(prov, done, done', k, pk, t, u);
  }

  lemma {:induction false} LatestUnion(prov: Provenance, done: set<Pointer>, done': set<Pointer>,
                                       k: Pointer, pk: Pointer, t: Time, u: Time)
    requires forall q | q in prov :: Stands(prov, done', pk, q) <==> Stands(prov, done, k, q) || Stands(prov, done, pk, q)
    requires IsLatest(prov, done, k, t) && IsLatest(prov, done, pk, u)
    ensures IsLatest(prov, done', pk, Later(t, u))
  {
    var q :| Stands(prov, done, k, q) && prov[q].declaredAt == t;
    var r :| Stands(prov, done, pk, r) && prov[r].declaredAt == u;
    assert Stands(prov, done', pk, if CmpTime(t, u) > 0 then q else r);
  }

  lemma {:induction false} LatestKeep(prov: Provenance, done: set<Pointer>, k: Pointer, x: Pointer, t: Time)
    requires k in prov && k !in done && IsLatest(prov, done, x, t)
    requires Redundant(prov, k) ==> x != k && Governor(prov.Keys, Parent(k)).value !in done + {k, x}
    ensures IsLatest(prov, done + {k}, x, t)
  {
    forall q | q in prov ensures Stands(prov, done + {k}, x, q) <==> Stands(prov, done, x, q) {
      if Redundant(prov, k) {
        RepStep(prov, done, k, q);
      } else {
        RepSkip(prov, done, k, q);
      }
    }
  }

  /** Only keys at least as long as k have been processed. */
  predicate DeepDone(done: set<Pointer>, k: Pointer) {
    forall q | q in done :: |q| >= |k|
  }

  /** What one iteration does to the stored keys. */
  function SqueezeStep(cur: Provenance, k: Pointer): Provenance {
    if k !in cur || |k| < 2 || Governor(cur.Keys, Parent(k)).None? then cur
    else
      var pk := Governor(cur.Keys, Parent(k)).value;
      if !SameClaim(cur[k], cur[pk]) then cur
      else cur[pk := cur[pk].(declaredAt := Later(cur[k].declaredAt, cur[pk].declaredAt))] - {k}
  }

  lemma {:induction false} GovernorKept(before: Provenance, done: set<Pointer>, cur: Provenance, k: Pointer)
    requires k != [] && DeepDone(done, k) && Folded(before, done, cur)
    ensures Governor(cur.Keys, Parent(k)) == Governor(before.Keys, Parent(k))
  {
    forall n | 0 < n <= |Parent(k)| ensures Parent(k)[..n] in cur.Keys <==> Parent(k)[..n] in before.Keys {
      assert Parent(k)[..n] !in done;
    }
    GovernorLocal(cur.Keys, before.Keys, Parent(k));
  }

  /** While the keys go deepest first, a key meets its original governing key with its original
      claim, so the step folds exactly the redundant keys. */
  lemma {:induction false} StepShape(before: Provenance, done: set<Pointer>, cur: Provenance, k: Pointer)
    requires k in before && k !in done && DeepDone(done, k) && Folded(before, done, cur)
    ensures !Redundant(before, k) ==> SqueezeStep(cur, k) == cur
    ensures Redundant(before, k) ==>
              var pk := Governor(before.Keys, Parent(k)).value;
              pk in cur && pk !in done && k in cur
              && SqueezeStep(cur, k)
              == cur[pk := cur[pk].(declaredAt := Later(cur[k].declaredAt, cur[pk].declaredAt))] - {k}
  {
    FoldedEntry(before, done, cur, k);
    if |k| >= 2 {
      GovernorKept(before, done, cur, k);
      var g := Governor(before.Keys, Parent(k));
      if g.Some? {
        assert |g.value| < |k|;
        FoldedEntry(before, done, cur, g.value);
      }
    }
    StepIs(before, cur, k);
  }

  /** A key not yet processed is stored with its original claim. */
  lemma {:induction false} FoldedEntry(before: Provenance, done: set<Pointer>, cur: Provenance, q: Pointer)
    requires Folded(before, done, cur) && q in before && q !in done
    ensures q in cur && SameClaim(cur[q], before[q])
  {}

  lemma {:induction false} StepIs(before: Provenance, cur: Provenance, k: Pointer)
    requires k in before && k in cur && SameClaim(cur[k], before[k])
    requires |k| >= 2 ==> Governor(cur.Keys, Parent(k)) == Governor(before.Keys, Parent(k))
    requires |k| >= 2 && Governor(before.Keys, Parent(k)).Some? ==>
               var g := Governor(before.Keys, Parent(k)).value; g in cur && SameClaim(cur[g], before[g])
    ensures !Redundant(before, k) ==> SqueezeStep(cur, k) == cur
    ensures Redundant(before, k) ==>
              var pk := Governor(before.Keys, Parent(k)).value;
              SqueezeStep(cur, k) == cur[pk := cur[pk].(declaredAt := Later(cur[k].declaredAt, cur[pk].declaredAt))] - {k}
  {}

  lemma {:induction false} StepEntry(before: Provenance, done: set<Pointer>, cur: Provenance, k: Pointer, x: Pointer)
    requires k in before && k !in done && DeepDone(done, k) && Folded(before, done, cur)
    requires x in SqueezeStep(cur, k)
    ensures SameClaim(SqueezeStep(cur, k)[x], before[x])
    ensures IsLatest(before, done + {k}, x, SqueezeStep(cur, k)[x].declaredAt)
  {
    StepShape(before, done, cur, k);
    assert k in cur ==> IsLatest(before, done, k, cur[k].declaredAt);
    assert x in cur && SameClaim(cur[x], before[x]) && IsLatest(before, done, x, cur[x].declaredAt);
    EntryAfter(before, done, cur, k, x);
  }

  lemma {:induction false} EntryAfter(before: Provenance, done: set<Pointer>, cur: Provenance, k: Pointer, x: Pointer)
    requires k in before && k !in done && x in before && x in SqueezeStep(cur, k) && x in cur
    requires SameClaim(cur[x], before[x]) && IsLatest(before, done, x, cur[x].declaredAt)
    requires !Redundant(before, k) ==> SqueezeStep(cur, k) == cur
    requires Redundant(before, k) ==>
               var pk := Governor(before.Keys, Parent(k)).value;
               pk in cur && pk !in done && k in cur && IsLatest(before, done, k, cur[k].declaredAt)
               && SqueezeStep(cur, k) == cur[pk := cur[pk].(declaredAt := Later(cur[k].declaredAt, cur[pk].declaredAt))] - {k}
    ensures SameClaim(SqueezeStep(cur, k)[x], before[x])
    ensures IsLatest(before, done + {k}, x, SqueezeStep(cur, k)[x].declaredAt)
  {
    if Redundant(before, k) && Governor(before.Keys, Parent(k)).value == x {
      LatestStep(before, done, k, x, cur[k].declaredAt, cur[x].declaredAt);
    } else {
      LatestKeep(before, done, k, x, cur[x].declaredAt);
    }
  }

  lemma {:induction false} StepKeys(before: Provenance, done: set<Pointer>, cur: Provenance, k: Pointer)
    requires k in before && k !in done && DeepDone(done, k) && Folded(before, done, cur)
    ensures forall q :: q in SqueezeStep(cur, k) <==> q in before && !(q in done + {k} && Redundant(before, q))
  {
    StepShape(before, done, cur, k);
  }

  lemma {:induction false} StepFolds(before: Provenance, done: set<Pointer>, cur: Provenance, k: Pointer)
    requires k in before && k !in done && DeepDone(done, k) && Folded(before, done, cur)
    ensures Folded(before, done + {k}, SqueezeStep(cur, k))
  {
    var next := SqueezeStep(cur, k);
    StepKeys(before, done, cur, k);
    forall x | x in next
      ensures SameClaim(next[x], before[x]) && IsLatest(before, done + {k}, x, next[x].declaredAt)
    {
      StepEntry(before, done, cur, k, x);
    }
  }

  /** Where no key of `done` is redundant, nothing is folded. */
  lemma {:induction false} NothingFolds(prov: Provenance, done: set<Pointer>)
    requires forall k | k in done :: !Redundant(prov, k)
    ensures Folded(prov, done, prov)
  {
    forall k, q | k in prov && q in prov ensures Stands(prov, done, k, q) <==> k == q {}
    forall k | k in prov ensures IsLatest(prov, done, k, prov[k].declaredAt) {
      assert Stands(prov, done, k, k);
    }
  }

  // ---- what the first stage means ----------------------------------------------------------------

  /** The governing key afterwards stands for the governing key before. */
  lemma {:induction false} GovernorSqueezed(before: Provenance, after: Provenance, p: Pointer)
    requires Squeezed(before, after)
    ensures Governor(before.Keys, p).None? ==> Governor(after.Keys, p).None?
    ensures Governor(before.Keys, p).Some? ==>
              Governor(after.Keys, p) == Some(Rep(before, before.Keys, Governor(before.Keys, p).value))
    decreases |p|
  {
    if p != [] {
      GovernorSqueezed(before, after, Parent(p));
      if Governor(before.Keys, p).Some? {
        RepFacts(before, before.Keys, Governor(before.Keys, p).value);
      }
    }
  }

  /** Meaning is preserved: the claim that governs any pointer at all is unchanged except for its
      declaration date, which never moves earlier. */
  lemma {:induction false} SqueezePreservesMeaning(before: Provenance, after: Provenance, p: Pointer)
    requires Squeezed(before, after)
    ensures SameClaimOption(Claim(before, p), Claim(after, p))
    ensures Claim(before, p).Some? ==>
              CmpTime(Claim(before, p).value.declaredAt, Claim(after, p).value.declaredAt) <= 0
  {
    GovernorSqueezed(before, after, p);
    if Governor(before.Keys, p).Some? {
      var g := Governor(before.Keys, p).value;
      RepFacts(before, before.Keys, g);
      assert Stands(before, before.Keys, Rep(before, before.Keys, g), g);
    }
  }

  /** The date a surviving key ends up with is a date one of the keys at or below it carried with the
      same claim: nothing is invented. */
  lemma {:induction false} SqueezedDateIsCovered(before: Provenance, after: Provenance, k: Pointer)
    requires Squeezed(before, after) && k in after
    ensures exists q :: q in before && k <= q && SameClaim(before[q], before[k])
                        && before[q].declaredAt == after[k].declaredAt
  {
    var q :| Stands(before, before.Keys, k, q) && before[q].declaredAt == after[k].declaredAt;
    RepFacts(before, before.Keys, q);
  }

  /** No remaining key repeats the claim of its nearest stored ancestor. */
  lemma {:induction false} SqueezeIsFixpoint(before: Provenance, after: Provenance, k: Pointer)
    requires Squeezed(before, after)
    ensures !Redundant(after, k)
  {
    if k in after && |k| >= 2 {
      GovernorSqueezed(before, after, Parent(k));
      if Governor(before.Keys, Parent(k)).Some? {
        RepFacts(before, before.Keys, Governor(before.Keys, Parent(k)).value);
      }
    }
  }

  /** A second run changes nothing. */
  lemma {:induction false} SqueezeTwice(before: Provenance, after: Provenance, again: Provenance)
    requires Squeezed(before, after) && Squeezed(after, again)
    ensures again == after
  {
    forall k ensures !Redundant(after, k) {
      SqueezeIsFixpoint(before, after, k);
    }
    NothingFolds(after, after.Keys);
    SqueezedUnique(after, again, after);
  }

  /** A sub-sidecar resolves the same claims as the whole. */
  ghost predicate Resembles(prov: Provenance, part: Provenance) {
    part.Keys <= prov.Keys
    && forall p: Pointer :: SameClaimOption(Claim(prov, p), Claim(part, p))
  }

  /** The result is the least sidecar over the original keys with the same meaning: every other one
      keeps at least its keys, so none of them can be dropped. */
  lemma {:induction false} SqueezeIsLeast(before: Provenance, after: Provenance, part: Provenance)
    requires [] !in before && Squeezed(before, after) && Resembles(before, part)
    ensures after.Keys <= part.Keys
  {
    forall k | k in after ensures k in part {
      assert SameClaimOption(Claim(before, k), Claim(part, k));
      assert SameClaimOption(Claim(before, Parent(k)), Claim(part, Parent(k)));
      KeptIsNeeded(before, part, k);
    }
  }

  lemma {:induction false} KeptIsNeeded(before: Provenance, part: Provenance, k: Pointer)
    requires k in before && k != [] && !Redundant(before, k)
    requires SameClaimOption(Claim(before, k), Claim(part, k))
    requires SameClaimOption(Claim(before, Parent(k)), Claim(part, Parent(k)))
    ensures k in part
  {
    assert |k| == 1 ==> Parent(k) == [];
    assert !SameClaimOption(Claim(before, k), Claim(before, Parent(k)));
  }
}
