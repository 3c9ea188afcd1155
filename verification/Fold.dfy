/** The second stage of compactProvenance (model/provenance.go): over the key limit, the keys below an
    element fold into the element's key, the weaker claim winning, and then the root attribute keys go. */
module Fold {
  import opened Options
  import Json
  import opened Pointers
  import opened Sidecar
  import opened Compact
  import opened Sets

  /** A key below an element: the fold moves it to the element's key. */
  predicate Deep(k: Pointer) {
    |k| > 2 && k[0] != "attrs"
  }

  /** One iteration of the fold. */
  function FoldStep(m: Model, k: Pointer): Provenance {
    if k !in m.prov || !Deep(k) then m.prov
    else
      var e, cur := m.prov[k], ProvenanceOf(m, k[..2]);
      var kept := if e.kind != cur.kind && Weaker(e.kind, cur.kind) == e.kind then e else cur;
      m.prov[k[..2] := kept] - {k}
  }

  /** The sidecar after the first n keys of the order. */
  function FoldUpTo(m: Model, order: seq<Pointer>, n: nat): Provenance
    requires n <= |order|
  {
    if n == 0 then m.prov
    else FoldStep(m.(prov := FoldUpTo(m, order, n - 1)), order[n - 1])
  }

  /** An order of the keys with the deepest first (any order among keys of one depth). */
  predicate DeepestFirst(order: seq<Pointer>, keys: set<Pointer>) {
    (forall i | 0 <= i < |order| :: order[i] in keys)
    && (forall k | k in keys :: k in order)
    && (forall i, j | 0 <= i < j < |order| :: order[i] != order[j] && |order[i]| >= |order[j]|)
  }

  function DropRootAttrs(prov: Provenance): Provenance {
    map k | k in prov && !(|k| >= 2 && k[0] == "attrs") :: prov[k]
  }

  /** What compactProvenance may leave in the sidecar of m. */
  ghost predicate Compacted(m: Model, limit: nat, after: Provenance) {
    if |m.prov| < 2 then after == m.prov
    else exists squeezed, order :: CompactedVia(m, limit, after, squeezed, order)
  }

  ghost predicate CompactedVia(m: Model, limit: nat, after: Provenance, squeezed: Provenance, order: seq<Pointer>) {
    Squeezed(m.prov, squeezed) && DeepestFirst(order, m.prov.Keys)
    && after == Shrunk(m.(prov := squeezed), limit, order)
  }

  /** The fold and the removal of the root attribute keys, each only while over the limit. */
  function Shrunk(m: Model, limit: nat, order: seq<Pointer>): Provenance {
    if |m.prov| <= limit then m.prov
    else
      var folded := FoldUpTo(m, order, |order|);
      if |folded| <= limit then folded else DropRootAttrs(folded)
  }

  // ---- what is stored after the fold -------------------------------------------------------------

  /** The first n keys of the order hold a stored key below the element el. */
  ghost predicate Touched(m: Model, order: seq<Pointer>, n: nat, el: Pointer) {
    exists i :: 0 <= i < n <= |order| && order[i] in m.prov && Deep(order[i]) && order[i][..2] == el
  }

  lemma {:induction false} TouchedStep(m: Model, order: seq<Pointer>, n: nat, el: Pointer)
    requires 0 < n <= |order|
    ensures Touched(m, order, n, el) <==>
            Touched(m, order, n - 1, el)
            || (order[n - 1] in m.prov && Deep(order[n - 1]) && order[n - 1][..2] == el)
  {}

  lemma {:induction false} FoldStepKey(m: Model, k: Pointer, q: Pointer)
    ensures q in FoldStep(m, k) <==>
            (q in m.prov && !(Deep(k) && q == k)) || (k in m.prov && Deep(k) && q == k[..2])
    ensures q in FoldStep(m, k) && !(k in m.prov && Deep(k) && q == k[..2]) ==> FoldStep(m, k)[q] == m.prov[q]
  {}

  lemma {:induction false} FoldKeys(m: Model, order: seq<Pointer>, n: nat, q: Pointer)
    requires n <= |order|
    ensures q in FoldUpTo(m, order, n) <==>
            (q in m.prov && !(Deep(q) && q in order[..n])) || Touched(m, order, n, q)
    ensures q in FoldUpTo(m, order, n) && !Touched(m, order, n, q) ==> FoldUpTo(m, order, n)[q] == m.prov[q]
    decreases n
  {
    if n > 0 {
      var k := order[n - 1];
      FoldKeys(m, order, n - 1, q);
      FoldKeys(m, order, n - 1, k);
      TouchedStep(m, order, n, q);
      FoldStepKey(m.(prov := FoldUpTo(m, order, n - 1)), k, q);
      assert order[..n] == order[..n - 1] + [k];
      assert !Deep(k) || !Touched(m, order, n - 1, k);
    }
  }

  // ---- the kinds only get weaker -----------------------------------------------------------------

  /** A step leaves the stored claim of every other pointer of two tokens or less alone. */
  lemma {:induction false} ClaimStep(m: Model, k: Pointer, p: Pointer)
    requires |p| <= 2 && (k !in m.prov || !Deep(k) || p != k[..2])
    ensures Claim(FoldStep(m, k), p) == Claim(m.prov, p)
  {
    if k in m.prov && Deep(k) {
      var after := FoldStep(m, k);
      forall n | 0 < n <= |p| ensures p[..n] in after.Keys <==> p[..n] in m.prov.Keys {
        assert p[..|p|] == p;
      }
      GovernorLocal(after.Keys, m.prov.Keys, p);
    }
  }

  /** The element's key takes a claim no stronger than what it had and than what is folded into it. */
  lemma {:induction false} ElementStep(m: Model, k: Pointer)
    requires k in m.prov && Deep(k)
    ensures Claim(FoldStep(m, k), k[..2]).Some?
    ensures var kept := Claim(FoldStep(m, k), k[..2]).value.kind;
            Rank(kept) <= Rank(KindOf(m, k[..2])) && Rank(kept) <= Rank(m.prov[k].kind)
            && (kept == KindOf(m, k[..2]) || kept == m.prov[k].kind)
  {}

  /** The kind of a pointer of two tokens or less only ever gets weaker. */
  lemma {:induction false} ShallowStep(m: Model, k: Pointer, p: Pointer)
    requires |p| <= 2
    ensures Rank(KindOf(m.(prov := FoldStep(m, k)), p)) <= Rank(KindOf(m, p))
  {
    if k in m.prov && Deep(k) && p == k[..2] {
      ElementStep(m, k);
    } else {
      ClaimStep(m, k, p);
      if Derived(m, p) {
        var e := Find(m.edges, p[1]).value;
        NodeStep(m, k, FromOf(e));
        NodeStep(m, k, ToOf(e));
      }
    }
  }

  lemma {:induction false} NodeStep(m: Model, k: Pointer, p: Pointer)
    requires |p| == 2 && p[0] == "nodes"
    ensures Rank(BaseProvenance(m.(prov := FoldStep(m, k)), p).kind) <= Rank(BaseProvenance(m, p).kind)
  {
    if k in m.prov && Deep(k) && p == k[..2] {
      ElementStep(m, k);
    } else {
      ClaimStep(m, k, p);
    }
  }

  lemma {:induction false} ShallowFold(m: Model, order: seq<Pointer>, n: nat, p: Pointer)
    requires n <= |order| && |p| <= 2
    ensures Rank(KindOf(m.(prov := FoldUpTo(m, order, n)), p)) <= Rank(KindOf(m, p))
  {
    if n > 0 {
      ShallowFold(m, order, n - 1, p);
      ShallowStep(m.(prov := FoldUpTo(m, order, n - 1)), order[n - 1], p);
    }
  }

  /** Once a deep key has been folded, its element's key makes a claim no stronger. */
  lemma {:induction false} FoldedInto(m: Model, order: seq<Pointer>, n: nat, k: Pointer)
    requires n <= |order| && k in m.prov && Deep(k) && k in order[..n]
    ensures k[..2] in FoldUpTo(m, order, n)
    ensures Rank(FoldUpTo(m, order, n)[k[..2]].kind) <= Rank(m.prov[k].kind)
    decreases n
  {
    var cur := m.(prov := FoldUpTo(m, order, n - 1));
    var last := order[n - 1];
    assert order[..n] == order[..n - 1] + [last];
    if k in order[..n - 1] {
      FoldedInto(m, order, n - 1, k);
      ShallowStep(cur, last, k[..2]);
    } else {
      FoldKeys(m, order, n - 1, k);
      ElementStep(cur, k);
    }
  }

  /** After the whole fold no key below an element is left, so its first two tokens decide a pointer. */
  lemma {:induction false} ElementDecides(m: Model, order: seq<Pointer>, p: Pointer)
    requires forall k | k in m.prov :: k in order
    requires |p| >= 2 && p[0] != "attrs"
    ensures var after := m.(prov := FoldUpTo(m, order, |order|));
            KindOf(after, p) == KindOf(after, p[..2])
  {
    var after := m.(prov := FoldUpTo(m, order, |order|));
    forall k | k in after.prov && k <= p ensures |k| <= 2 {
      FoldKeys(m, order, |order|, k);
      assert order[..|order|] == order;
    }
    NoDeepGovernor(after, p);
  }

  /** Every pointer resolves no stronger after the whole fold than before, edges derived from their
      endpoints included. */
  lemma {:induction false} FoldWeakens(m: Model, order: seq<Pointer>, p: Pointer)
    requires forall k | k in m.prov :: k in order
    ensures Rank(KindOf(m.(prov := FoldUpTo(m, order, |order|)), p)) <= Rank(KindOf(m, p))
  {
    if |p| <= 2 {
      ShallowFold(m, order, |order|, p);
    } else if p[0] == "attrs" {
      AttrsUntouched(m, order, p);
    } else {
      ElementDecides(m, order, p);
      var g := Governor(m.prov.Keys, p);
      if g.Some? && |g.value| > 2 {
        DeepGovernorWeakens(m, order, p);
      } else {
        GovernorIsLongest(m.prov.Keys, p);
        NoDeepGovernor(m, p);
        ShallowFold(m, order, |order|, p[..2]);
      }
    }
  }

  lemma {:induction false} DeepGovernorWeakens(m: Model, order: seq<Pointer>, p: Pointer)
    requires forall k | k in m.prov :: k in order
    requires |p| > 2 && p[0] != "attrs"
    requires Governor(m.prov.Keys, p).Some? && |Governor(m.prov.Keys, p).value| > 2
    ensures Rank(KindOf(m.(prov := FoldUpTo(m, order, |order|)), p[..2])) <= Rank(KindOf(m, p))
  {
    var g := Governor(m.prov.Keys, p).value;
    assert g[..2] == p[..2];
    assert order[..|order|] == order;
    FoldedInto(m, order, |order|, g);
  }

  lemma {:induction false} AttrsUntouched(m: Model, order: seq<Pointer>, p: Pointer)
    requires p != [] && p[0] == "attrs"
    ensures Claim(FoldUpTo(m, order, |order|), p) == Claim(m.prov, p)
  {
    var after := FoldUpTo(m, order, |order|);
    forall n | 0 < n <= |p| ensures p[..n] in after <==> p[..n] in m.prov {
      FoldKeys(m, order, |order|, p[..n]);
    }
    GovernorLocal(after.Keys, m.prov.Keys, p);
    var g := Governor(m.prov.Keys, p);
    if g.Some? {
      FoldKeys(m, order, |order|, g.value);
    }
  }

  /** Where no key longer than two tokens governs p, p takes the claim of its first two tokens. */
  lemma {:induction false} NoDeepGovernor(m: Model, p: Pointer)
    requires |p| >= 2
    requires forall k | k in m.prov && k <= p :: |k| <= 2
    ensures Claim(m.prov, p) == Claim(m.prov, p[..2])
    ensures KindOf(m, p) == KindOf(m, p[..2])
    decreases |p|
  {
    if |p| == 2 {
      assert p[..2] == p;
    } else {
      assert Parent(p)[..2] == p[..2];
      NoDeepGovernor(m, Parent(p));
    }
  }

  // ---- compactProvenance as a whole --------------------------------------------------------------

  lemma {:induction false} BaseSqueezed(m: Model, after: Provenance, p: Pointer)
    requires Squeezed(m.prov, after)
    ensures SameClaimOption(Claim(m.prov, p), Claim(after, p))
    ensures SameClaim(BaseProvenance(m, p), BaseProvenance(m.(prov := after), p))
  {
    SqueezePreservesMeaning(m.prov, after, p);
  }

  /** The first stage changes no claim, stored or resolved: derived edges follow their endpoints. */
  lemma {:induction false} SqueezeKeepsClaims(m: Model, after: Provenance, p: Pointer)
    requires Squeezed(m.prov, after)
    ensures SameClaim(ProvenanceOf(m.(prov := after), p), ProvenanceOf(m, p))
    ensures KindOf(m.(prov := after), p) == KindOf(m, p)
  {
    BaseSqueezed(m, after, p);
    if Derived(m, p) {
      var e := Find(m.edges, p[1]).value;
      BaseSqueezed(m, after, FromOf(e));
      BaseSqueezed(m, after, ToOf(e));
    }
  }

  lemma {:induction false} SmallIsSqueezed(prov: Provenance)
    requires |prov| < 2
    ensures Squeezed(prov, prov)
  {
    forall k | k in prov ensures !Redundant(prov, k) {
      if Redundant(prov, k) {
        var g := Governor(prov.Keys, Parent(k)).value;
        SubsetSize({g, k}, prov.Keys);
        assert false;
      }
    }
    NothingFolds(prov, prov.Keys);
  }

  lemma {:induction false} WithinLimitSqueezes(m: Model, limit: nat, after: Provenance)
    requires Compacted(m, limit, after) && |m.prov| <= limit
    ensures Squeezed(m.prov, after)
  {
    if |m.prov| < 2 {
      SmallIsSqueezed(m.prov);
    } else {
      var squeezed, order :| CompactedVia(m, limit, after, squeezed, order);
      SqueezedSize(m.prov, squeezed);
      SmallIsNotShrunk(m.(prov := squeezed), limit, order);
    }
  }

  lemma {:induction false} SmallIsNotShrunk(m: Model, limit: nat, order: seq<Pointer>)
    requires |m.prov| <= limit
    ensures Shrunk(m, limit, order) == m.prov
  {}

  lemma {:induction false} SqueezedSize(before: Provenance, after: Provenance)
    requires Squeezed(before, after)
    ensures after.Keys <= before.Keys && |after| <= |before|
  {
    SubsetSize(after.Keys, before.Keys);
  }

  /** Within the key limit, compaction preserves meaning: every pointer resolves to the same claim but
      for its declaration date, which never moves earlier. */
  lemma {:induction false} CompactWithinLimit(m: Model, limit: nat, after: Provenance, p: Pointer)
    requires Compacted(m, limit, after) && |m.prov| <= limit
    ensures SameClaimOption(Claim(m.prov, p), Claim(after, p))
    ensures Claim(m.prov, p).Some? ==>
              CmpTime(Claim(m.prov, p).value.declaredAt, Claim(after, p).value.declaredAt) <= 0
    ensures SameClaim(ProvenanceOf(m.(prov := after), p), ProvenanceOf(m, p))
  {
    WithinLimitSqueezes(m, limit, after);
    SqueezePreservesMeaning(m.prov, after, p);
    SqueezeKeepsClaims(m, after, p);
  }

  /** Within the key limit a second compaction changes nothing, and no selection of the original keys
      that resolves the same claims is smaller. */
  lemma {:induction false} CompactIsMinimal(m: Model, limit: nat, after: Provenance, again: Provenance, part: Provenance)
    requires Compacted(m, limit, after) && |m.prov| <= limit
    requires Compacted(m.(prov := after), limit, again)
    requires [] !in m.prov && Resembles(m.prov, part)
    ensures again == after
    ensures after.Keys <= part.Keys
  {
    WithinLimitSqueezes(m, limit, after);
    SubsetSize(after.Keys, m.prov.Keys);
    WithinLimitSqueezes(m.(prov := after), limit, again);
    SqueezeTwice(m.prov, after, again);
    SqueezeIsLeast(m.prov, after, part);
  }

  /** The bare key of the root attributes takes over p from a weaker key when the keys under it go. */
  predicate BareKeyTakesOver(prov: Provenance, p: Pointer) {
    p != [] && p[0] == "attrs" && ["attrs"] in prov && Claim(prov, p).Some?
    && Rank(Claim(prov, p).value.kind) < Rank(prov[["attrs"]].kind)
  }

  /** Both limits are passed: the root attribute keys go. */
  predicate DropsRootAttrs(m: Model, limit: nat, squeezed: Provenance, order: seq<Pointer>) {
    |squeezed| > limit && |FoldUpTo(m.(prov := squeezed), order, |order|)| > limit
  }

  /** Exactly when compaction makes a pointer's kind stronger: the root attribute keys go, and the bare
      key `/attrs` is left to govern p in place of a weaker key. */
  lemma {:induction false} CompactStrengthensIff(m: Model, limit: nat, after: Provenance, squeezed: Provenance,
                                                 order: seq<Pointer>, p: Pointer)
    requires CompactedVia(m, limit, after, squeezed, order)
    ensures Rank(KindOf(m.(prov := after), p)) > Rank(KindOf(m, p))
            <==> DropsRootAttrs(m, limit, squeezed, order) && BareKeyTakesOver(m.prov, p)
  {
    var folded := FoldUpTo(m.(prov := squeezed), order, |order|);
    FirstStages(m, squeezed, order, p);
    LastStage(m, squeezed, order, folded, p);
    assert after == if |squeezed| <= limit then squeezed else if |folded| <= limit then folded else DropRootAttrs(folded);
  }

  /** The first two stages strengthen no kind. */
  lemma {:induction false} FirstStages(m: Model, squeezed: Provenance, order: seq<Pointer>, p: Pointer)
    requires Squeezed(m.prov, squeezed) && DeepestFirst(order, m.prov.Keys)
    ensures Rank(KindOf(m.(prov := squeezed), p)) <= Rank(KindOf(m, p))
    ensures Rank(KindOf(m.(prov := FoldUpTo(m.(prov := squeezed), order, |order|)), p)) <= Rank(KindOf(m, p))
  {
    var s := m.(prov := squeezed);
    SqueezeKeepsClaims(m, squeezed, p);
    FoldWeakens(s, order, p);
  }

  /** What the last stage strengthens. */
  lemma {:induction false} LastStage(m: Model, squeezed: Provenance, order: seq<Pointer>, folded: Provenance, p: Pointer)
    requires Squeezed(m.prov, squeezed) && DeepestFirst(order, m.prov.Keys)
    requires folded == FoldUpTo(m.(prov := squeezed), order, |order|)
    ensures Rank(KindOf(m.(prov := DropRootAttrs(folded)), p)) > Rank(KindOf(m, p)) <==> BareKeyTakesOver(m.prov, p)
  {
    FirstStages(m, squeezed, order, p);
    BareKeyStays(m, squeezed, order);
    DropStrengthens(m, folded, p);
  }

  lemma {:induction false} DropStrengthens(m: Model, folded: Provenance, p: Pointer)
    requires Rank(KindOf(m.(prov := folded), p)) <= Rank(KindOf(m, p))
    requires ["attrs"] in folded <==> ["attrs"] in m.prov
    requires ["attrs"] in folded ==> folded[["attrs"]].kind == m.prov[["attrs"]].kind
    ensures Rank(KindOf(m.(prov := DropRootAttrs(folded)), p)) > Rank(KindOf(m, p)) <==> BareKeyTakesOver(m.prov, p)
  {
    DropKind(m.(prov := folded), p);
    if p != [] && p[0] == "attrs" {
      AttrKind(m, p);
    }
  }

  lemma {:induction false} AttrKind(m: Model, p: Pointer)
    requires p != [] && p[0] == "attrs"
    ensures KindOf(m, p) == if Claim(m.prov, p).Some? then Claim(m.prov, p).value.kind else Declared
    ensures ["attrs"] in m.prov ==> Claim(m.prov, p).Some?
  {
    GovernorIsLongest(m.prov.Keys, p);
    assert ["attrs"] <= p;
  }

  /** The claims of the root attributes up to the last stage. */
  lemma {:induction false} AttrClaimStays(m: Model, squeezed: Provenance, order: seq<Pointer>, p: Pointer)
    requires Squeezed(m.prov, squeezed) && p != [] && p[0] == "attrs"
    ensures SameClaimOption(Claim(m.prov, p), Claim(FoldUpTo(m.(prov := squeezed), order, |order|), p))
  {
    AttrsUntouched(m.(prov := squeezed), order, p);
    SqueezePreservesMeaning(m.prov, squeezed, p);
  }

  lemma {:induction false} BareKeyStays(m: Model, squeezed: Provenance, order: seq<Pointer>)
    requires Squeezed(m.prov, squeezed)
    ensures var folded := FoldUpTo(m.(prov := squeezed), order, |order|);
            (["attrs"] in folded <==> ["attrs"] in m.prov)
            && (["attrs"] in folded ==> folded[["attrs"]].kind == m.prov[["attrs"]].kind)
  {
    AttrClaimStays(m, squeezed, order, ["attrs"]);
    BareClaim(m.prov);
    BareClaim(FoldUpTo(m.(prov := squeezed), order, |order|));
  }

  /** Over the limit compaction may lose claims, but unless the bare key `/attrs` is stored it never makes
      a pointer's kind stronger. */
  lemma {:induction false} CompactNeverStrengthens(m: Model, limit: nat, after: Provenance, p: Pointer)
    requires Compacted(m, limit, after) && ["attrs"] !in m.prov
    ensures Rank(KindOf(m.(prov := after), p)) <= Rank(KindOf(m, p))
  {
    if |m.prov| >= 2 {
      var squeezed, order :| CompactedVia(m, limit, after, squeezed, order);
      CompactStrengthensIff(m, limit, after, squeezed, order, p);
    }
  }

  lemma BareClaim(prov: Provenance)
    ensures Claim(prov, ["attrs"]) == if ["attrs"] in prov then Some(prov[["attrs"]]) else None
  {
    assert Parent(["attrs"]) == [];
  }

  /** Without the root attribute keys the bare key governs every root attribute, and all else stays. */
  lemma {:induction false} DropKind(m: Model, p: Pointer)
    ensures var after := m.(prov := DropRootAttrs(m.prov));
            if p != [] && p[0] == "attrs"
            then KindOf(after, p) == if ["attrs"] in m.prov then m.prov[["attrs"]].kind else Declared
            else KindOf(after, p) == KindOf(m, p)
  {
    DropClaim(m, p);
    if Derived(m, p) {
      var e := Find(m.edges, p[1]).value;
      DropClaim(m, FromOf(e));
      DropClaim(m, ToOf(e));
    }
  }

  lemma {:induction false} DropClaim(m: Model, p: Pointer)
    ensures Claim(DropRootAttrs(m.prov), p)
            == if p != [] && p[0] == "attrs" then (if ["attrs"] in m.prov then Some(m.prov[["attrs"]]) else None)
               else Claim(m.prov, p)
  {
    var after := DropRootAttrs(m.prov);
    if p != [] && p[0] == "attrs" {
      var g := Governor(after.Keys, p);
      GovernorIsLongest(after.Keys, p);
      assert ["attrs"] in m.prov ==> ["attrs"] in after.Keys && ["attrs"] <= p;
      if g.Some? {
        assert g.value[0] == "attrs" && g.value in after;
        assert |g.value| == 1 && g.value == ["attrs"];
        assert after[["attrs"]] == m.prov[["attrs"]];
      }
    } else {
      GovernorLocal(after.Keys, m.prov.Keys, p);
    }
  }

  // ---- the input it strengthens ------------------------------------------------------------------

  const BARE: Pointer := ["attrs"]
  const BELOW: Pointer := ["attrs", "x"]

  /** A bare root key that is stronger than the one key under it. */
  function BareModel(): Model {
    Model(map[BARE := Plain(Imported, "s"), BELOW := Plain(Declared, "")], [], [], [], [], map["x" := Json.Null])
  }

  lemma {:induction false} BareIsSqueezed()
    ensures Squeezed(BareModel().prov, BareModel().prov)
  {
    var prov := BareModel().prov;
    assert Parent(BELOW) == BARE;
    assert !Redundant(prov, BARE) && !Redundant(prov, BELOW);
    NothingFolds(prov, prov.Keys);
  }

  lemma {:induction false} BareFold(order: seq<Pointer>)
    requires order == [BELOW, BARE]
    ensures FoldUpTo(BareModel(), order, |order|) == BareModel().prov && DeepestFirst(order, BareModel().prov.Keys)
  {
    var m := BareModel();
    assert m.(prov := m.prov) == m;
    assert !Deep(BELOW) && !Deep(BARE);
    assert FoldUpTo(m, order, 1) == FoldStep(m, BELOW) == m.prov;
    assert order[0] == BELOW && order[1] == BARE;
  }

  lemma {:induction false} BareTakesOver()
    ensures BareKeyTakesOver(BareModel().prov, BELOW)
  {
    var prov := BareModel().prov;
    assert BARE in prov && BELOW in prov;
    assert Governor(prov.Keys, BELOW) == Some(BELOW);
  }

  lemma {:induction false} BareDrops(order: seq<Pointer>)
    requires order == [BELOW, BARE]
    ensures var m := BareModel();
            CompactedVia(m, 1, Shrunk(m, 1, order), m.prov, order) && DropsRootAttrs(m, 1, m.prov, order) && |m.prov| == 2
  {
    var m := BareModel();
    BareIsSqueezed();
    BareFold(order);
    BareSize();
    assert m.(prov := m.prov) == m;
  }

  lemma BareSize()
    ensures |BareModel().prov| == 2
  {
    assert BARE != BELOW && BareModel().prov.Keys == {BARE, BELOW};
    assert |BareModel().prov| == |BareModel().prov.Keys|;
  }

  /** A sidecar that holds the bare key of the root attributes and a weaker key under it, compacted to one
      key: the key under it goes and the bare key governs. */
  lemma {:induction false} BareRootKeyStrengthens() returns (after: Provenance)
    ensures Compacted(BareModel(), 1, after)
    ensures Rank(KindOf(BareModel().(prov := after), BELOW)) > Rank(KindOf(BareModel(), BELOW))
  {
    var order := [BELOW, BARE];
    after := Shrunk(BareModel(), 1, order);
    BareDrops(order);
    BareTakesOver();
    Strengthened(BareModel(), after, order);
  }

  lemma {:induction false} Strengthened(m: Model, after: Provenance, order: seq<Pointer>)
    requires CompactedVia(m, 1, after, m.prov, order) && DropsRootAttrs(m, 1, m.prov, order) && |m.prov| == 2
    requires BareKeyTakesOver(m.prov, BELOW)
    ensures Compacted(m, 1, after) && Rank(KindOf(m.(prov := after), BELOW)) > Rank(KindOf(m, BELOW))
  {
    CompactStrengthensIff(m, 1, after, m.prov, order, BELOW);
  }

  // ---- what compaction leaves stored -------------------------------------------------------------

  /** The element keys of a model. */
  function ElementKeys(m: Model): seq<Pointer> {
    KeysOf("nodes", m.nodes) + KeysOf("edges", m.edges) + KeysOf("groups", m.groups) + KeysOf("identities", m.identities)
  }

  function KeysOf(name: string, elements: seq<Element>): (keys: seq<Pointer>)
    ensures |keys| == |elements|
  {
    seq(|elements|, i requires 0 <= i < |elements| => [name, elements[i].id])
  }

  lemma KeysOfHas(name: string, elements: seq<Element>, id: string)
    requires Find(elements, id).Some?
    ensures [name, id] in KeysOf(name, elements)
  {
    var i :| 0 <= i < |elements| && elements[i] == Find(elements, id).value;
    assert KeysOf(name, elements)[i] == [name, id];
  }

  lemma {:induction false} ResolutionIgnoresSidecar(m: Model, prov: Provenance, q: Pointer)
    ensures Resolves(m.(prov := prov), q) <==> Resolves(m, q)
  {}

  /** What is stored after both stages is a key from before or the element of one. */
  lemma {:induction false} CompactedKey(m: Model, limit: nat, after: Provenance, q: Pointer)
    requires Compacted(m, limit, after) && q in after
    ensures q in m.prov || exists k :: k in m.prov && Deep(k) && k[..2] == q
    ensures |after| > limit && limit >= 1 ==> !Deep(q) && !(|q| >= 2 && q[0] == "attrs")
  {
    if |m.prov| >= 2 {
      var squeezed, order :| CompactedVia(m, limit, after, squeezed, order);
      SqueezedSize(m.prov, squeezed);
      ShrunkKey(m.(prov := squeezed), limit, order, q);
    }
  }

  lemma {:induction false} ShrunkKey(m: Model, limit: nat, order: seq<Pointer>, q: Pointer)
    requires (forall k | k in m.prov :: k in order) && q in Shrunk(m, limit, order)
    ensures q in m.prov || exists k :: k in m.prov && Deep(k) && k[..2] == q
    ensures |Shrunk(m, limit, order)| > limit ==> !Deep(q) && !(|q| >= 2 && q[0] == "attrs")
  {
    FoldKeys(m, order, |order|, q);
    assert order[..|order|] == order;
  }

  /** Compaction keeps every key resolving. */
  lemma {:induction false} CompactKeepsResolving(m: Model, limit: nat, after: Provenance)
    requires Compacted(m, limit, after) && AllResolve(m)
    ensures AllResolve(m.(prov := after))
  {
    forall q | q in after ensures Resolves(m.(prov := after), q) {
      CompactedKey(m, limit, after, q);
      if q !in m.prov {
        var k :| k in m.prov && Deep(k) && k[..2] == q;
        ResolvesPrefix(m, k, 2);
      }
      ResolutionIgnoresSidecar(m, after, q);
    }
  }

  /** When every key resolves, the result has at most the limit, or at most one key per element. */
  lemma {:induction false} CompactIsBounded(m: Model, limit: nat, after: Provenance)
    requires Compacted(m, limit, after) && AllResolve(m) && limit >= 1
    ensures |after| <= limit
            || (|after| <= |m.nodes| + |m.edges| + |m.groups| + |m.identities|
                && forall k | k in after :: |k| == 2 && k[0] in COLLECTIONS)
  {
    if |after| > limit {
      CompactKeepsResolving(m, limit, after);
      forall k | k in after ensures |k| == 2 && k[0] in COLLECTIONS && k in ElementKeys(m) {
        CompactedKey(m, limit, after, k);
        ResolutionIgnoresSidecar(m, after, k);
        ShallowKeyIsElement(m, k);
      }
      ImageSize(after.Keys, ElementKeys(m));
    }
  }

  lemma {:induction false} ShallowKeyIsElement(m: Model, k: Pointer)
    requires Resolves(m, k) && !Deep(k) && k[0] != "attrs"
    ensures |k| == 2 && k[0] in COLLECTIONS && k in ElementKeys(m)
  {
    assert k == [k[0], k[1]];
    KeysOfHas(k[0], m.Collection(k[0]), k[1]);
  }
}
