/** What the pointers in a secret guard report say (secretguard/secretguard.go:192-277): they never
    contain a flagged key, and outside flagged keys they name the leaf that was hit. */
module SecretPaths {
  import opened Options
  import opened Text
  import opened Json
  import opened Pointers
  import opened Sorting
  import opened Secrets

  function ValueAt(v: Json, p: seq<string>): Json
    requires Holds(v, p)
    decreases |p|
  {
    if p == [] then v
    else match v
      case Obj(m) => ValueAt(m[p[0]], p[1..])
      case Arr(items) => ValueAt(items[IndexOf(p[0], |items|).value], p[1..])
  }

  /** No object key on the path produces a finding. */
  predicate Clean(w: Walker, v: Json, p: seq<string>)
    requires Holds(v, p)
    decreases |p|
  {
    p == [] ||
    match v
    case Obj(m) => w.quiet(KeyText(p[0])) && Clean(w, m[p[0]], p[1..])
    case Arr(items) => Clean(w, items[IndexOf(p[0], |items|).value], p[1..])
  }

  /** The text is a string leaf of the value or, where it is a key's, a key in it without its prefix. */
  ghost predicate Occurs(j: Json, text: string, inKey: bool)
    decreases j, 1
  {
    match j
    case Str(s) => !inKey && s == text
    case Obj(m) => exists k :: k in m && OccursAt(j, k, text, inKey)
    case Arr(items) => exists i :: 0 <= i < |items| && Occurs(items[i], text, inKey)
    case _ => false
  }

  ghost predicate OccursAt(j: Json, k: string, text: string, inKey: bool)
    requires j.Obj? && k in j.members
    decreases j, 0
  {
    (inKey && KeyText(k) == text) || Occurs(j.members[k], text, inKey)
  }

  /** The value holds the text of the visit: it is the string, or the object with the key, or the object
      with a key that is not quiet, under which the text lies. */
  ghost predicate Carries(w: Walker, j: Json, visit: Visit) {
    if visit.hidden then
      j.Obj? && exists k :: k in j.members && !w.quiet(KeyText(k)) && Occurs(j.members[k], visit.text, visit.inKey)
    else if visit.inKey then j.Obj? && exists k :: k in j.members && KeyText(k) == visit.text
    else j == Str(visit.text)
  }

  /** The value at p, reached through quiet keys only, holds the text, and p is the visit's pointer. */
  ghost predicate Located(w: Walker, base: string, v: Json, p: seq<string>, visit: Visit) {
    Holds(v, p) && Clean(w, v, p) && visit.path == base + JoinPointer(p) && Carries(w, ValueAt(v, p), visit)
  }

  // ---- below a flagged key -----------------------------------------------------------------------

  /** Every text is one of the value, reported at the pointer. */
  ghost predicate AllHidden(base: string, v: Json, visits: seq<Visit>) {
    forall i | 0 <= i < |visits| :: HiddenAt(base, v, visits[i])
  }

  ghost predicate HiddenAt(base: string, v: Json, visit: Visit) {
    visit.path == base && visit.hidden && Occurs(v, visit.text, visit.inKey)
  }

  lemma {:induction false} HiddenTogether(base: string, v: Json, a: seq<Visit>, b: seq<Visit>)
    requires AllHidden(base, v, a) && AllHidden(base, v, b)
    ensures AllHidden(base, v, a + b)
  {}

  /** Below a flagged key every text is reported at the object that holds the key. */
  lemma {:induction false} HiddenStays(w: Walker, base: string, v: Json)
    ensures AllHidden(base, v, Visits(w, base, v, true))
    decreases v, 2, 0
  {
    match v
    case Str(s) =>
    case Obj(m) => SortedMembers(m); HiddenMembers(w, base, v, SortedKeys(m.Keys));
    case Arr(items) => HiddenItems(w, base, v, |items|);
    case _ =>
  }

  lemma {:induction false} HiddenMembers(w: Walker, base: string, v: Json, keys: seq<string>)
    requires v.Obj? && forall i | 0 <= i < |keys| :: keys[i] in v.members
    ensures AllHidden(base, v, MemberVisits(w, base, v, keys, true))
    decreases v, 1, |keys|
  {
    if keys != [] {
      var k := keys[|keys| - 1];
      HiddenMembers(w, base, v, keys[..|keys| - 1]);
      HiddenMember(w, base, v, k);
      HiddenTogether(base, v, MemberVisits(w, base, v, keys[..|keys| - 1], true), MemberVisit(w, base, v, k, true));
    }
  }

  lemma {:induction false} HiddenMember(w: Walker, base: string, v: Json, k: string)
    requires v.Obj? && k in v.members
    ensures AllHidden(base, v, MemberVisit(w, base, v, k, true))
    decreases v, 0, 0
  {
    var own, below := Visit(KeyText(k), base, true, true), Visits(w, base, v.members[k], true);
    HiddenStays(w, base, v.members[k]);
    assert OccursAt(v, k, own.text, true);
    forall i | 0 <= i < |below| ensures HiddenAt(base, v, below[i]) {
      assert HiddenAt(base, v.members[k], below[i]);
      assert OccursAt(v, k, below[i].text, below[i].inKey);
    }
    HiddenTogether(base, v, [own], below);
  }

  lemma {:induction false} HiddenItems(w: Walker, base: string, v: Json, n: nat)
    requires v.Arr? && n <= |v.items|
    ensures AllHidden(base, v, ItemVisits(w, base, v, n, true))
    decreases v, 1, n
  {
    if n > 0 {
      HiddenItems(w, base, v, n - 1);
      HiddenStays(w, base, v.items[n - 1]);
      var front, own := ItemVisitsStep(w, base, v, n, true);
      forall i | 0 <= i < |own| ensures HiddenAt(base, v, own[i]) {
        assert HiddenAt(base, v.items[n - 1], own[i]);
      }
      HiddenTogether(base, v, front, own);
    }
  }

  // ---- outside flagged keys ----------------------------------------------------------------------

  ghost predicate MemberAsToken(w: Walker, k: string) { w.member(k) == Token(k) }

  ghost predicate ItemAsToken(w: Walker, i: nat) { w.item(i) == Token(Itoa(i)) }

  /** The walk spells its pointers as RFC 6901 does. */
  ghost predicate Spells(w: Walker) {
    (forall k :: MemberAsToken(w, k)) && forall i :: ItemAsToken(w, i)
  }

  lemma {:induction false} StepPath(base: string, token: string, p: seq<string>)
    ensures base + Token(token) + JoinPointer(p) == base + JoinPointer([token] + p)
  {
    assert ([token] + p)[1..] == p;
  }

  lemma {:induction false} MemberPath(w: Walker, base: string, k: string, p: seq<string>)
    requires Spells(w)
    ensures base + w.member(k) + JoinPointer(p) == base + JoinPointer([k] + p)
  {
    assert MemberAsToken(w, k);
    StepPath(base, k, p);
  }

  lemma {:induction false} ItemPath(w: Walker, base: string, i: nat, p: seq<string>)
    requires Spells(w)
    ensures base + w.item(i) + JoinPointer(p) == base + JoinPointer([Itoa(i)] + p)
  {
    assert ItemAsToken(w, i);
    StepPath(base, Itoa(i), p);
  }

  lemma {:induction false} MemberStep(w: Walker, base: string, v: Json, k: string, p: seq<string>, visit: Visit)
    requires Spells(w) && v.Obj? && k in v.members && w.quiet(KeyText(k))
    requires Located(w, base + w.member(k), v.members[k], p, visit)
    ensures Located(w, base, v, [k] + p, visit)
  {
    assert ([k] + p)[1..] == p;
    MemberPath(w, base, k, p);
  }

  /** The path of an item. */
  lemma {:induction false} IndexPath(v: Json, i: nat, p: seq<string>) returns (q: seq<string>)
    requires v.Arr? && i < |v.items|
    ensures q == [Itoa(i)] + p && q[0] == Itoa(i) && q[1..] == p && IndexOf(q[0], |v.items|) == Some(i)
  {
    q := [Itoa(i)] + p;
    var n := IndexOf(q[0], |v.items|);
    assert n.Some?;
    ItoaInjective(n.value, i);
  }

  lemma {:induction false} ItemStep(w: Walker, base: string, v: Json, i: nat, p: seq<string>, visit: Visit) returns (q: seq<string>)
    requires Spells(w) && v.Arr? && i < |v.items|
    requires Located(w, base + w.item(i), v.items[i], p, visit)
    ensures Located(w, base, v, q, visit)
  {
    ItemPath(w, base, i, p);
    q := IndexPath(v, i, p);
  }

  /** Every text the walk scans is located. */
  lemma {:induction false} VisitIsLocated(w: Walker, base: string, v: Json, i: nat) returns (p: seq<string>)
    requires Spells(w) && i < |Visits(w, base, v, false)|
    ensures Located(w, base, v, p, Visits(w, base, v, false)[i])
    decreases v, 2, 0
  {
    p := [];
    match v
    case Str(s) =>
    case Obj(m) => SortedMembers(m); p := MemberIsLocated(w, base, v, SortedKeys(m.Keys), i);
    case Arr(items) => p := ItemIsLocated(w, base, v, |items|, i);
  }

  lemma {:induction false} MemberIsLocated(w: Walker, base: string, v: Json, keys: seq<string>, i: nat) returns (p: seq<string>)
    requires Spells(w) && v.Obj? && forall i | 0 <= i < |keys| :: keys[i] in v.members
    requires i < |MemberVisits(w, base, v, keys, false)|
    ensures Located(w, base, v, p, MemberVisits(w, base, v, keys, false)[i])
    decreases v, 1, |keys|
  {
    var rest, k := keys[..|keys| - 1], keys[|keys| - 1];
    var n := |MemberVisits(w, base, v, rest, false)|;
    if i < n {
      p := MemberIsLocated(w, base, v, rest, i);
    } else {
      p := OneMember(w, base, v, k, i - n);
    }
  }

  lemma {:induction false} OneMember(w: Walker, base: string, v: Json, k: string, i: nat) returns (p: seq<string>)
    requires Spells(w) && v.Obj? && k in v.members && i < |MemberVisit(w, base, v, k, false)|
    ensures Located(w, base, v, p, MemberVisit(w, base, v, k, false)[i])
    decreases v, 0, 0
  {
    p := [];
    if i == 0 {
      assert Carries(w, v, Visit(KeyText(k), base, true, false));
    } else if !w.quiet(KeyText(k)) {
      HiddenStays(w, base, v.members[k]);
      assert HiddenAt(base, v.members[k], Visits(w, base, v.members[k], true)[i - 1]);
    } else {
      var q := VisitIsLocated(w, base + w.member(k), v.members[k], i - 1);
      MemberStep(w, base, v, k, q, MemberVisit(w, base, v, k, false)[i]);
      p := [k] + q;
    }
  }

  lemma {:induction false} ItemIsLocated(w: Walker, base: string, v: Json, n: nat, i: nat) returns (p: seq<string>)
    requires Spells(w) && v.Arr? && n <= |v.items| && i < |ItemVisits(w, base, v, n, false)|
    ensures Located(w, base, v, p, ItemVisits(w, base, v, n, false)[i])
    decreases v, 1, n
  {
    var before := |ItemVisits(w, base, v, n - 1, false)|;
    if i < before {
      p := ItemIsLocated(w, base, v, n - 1, i);
    } else {
      var q := VisitIsLocated(w, base + w.item(n - 1), v.items[n - 1], i - before);
      p := ItemStep(w, base, v, n - 1, q, ItemVisits(w, base, v, n, false)[i]);
    }
  }

  // ---- every leaf on a clean path is visited -----------------------------------------------------

  lemma {:induction false} LeafIsVisited(w: Walker, base: string, v: Json, p: seq<string>) returns (i: nat)
    requires Spells(w) && Holds(v, p) && Clean(w, v, p) && ValueAt(v, p).Str?
    ensures i < |Visits(w, base, v, false)|
    ensures Visits(w, base, v, false)[i] == Visit(ValueAt(v, p).s, base + JoinPointer(p), false, false)
    decreases v, 2, 0
  {
    i := 0;
    if p != [] {
      match v
      case Obj(m) => i := LeafInObject(w, base, v, p);
      case Arr(items) => i := LeafInArray(w, base, v, p);
    }
  }

  lemma {:induction false} LeafInObject(w: Walker, base: string, v: Json, p: seq<string>) returns (i: nat)
    requires Spells(w) && v.Obj? && p != [] && Holds(v, p) && Clean(w, v, p) && ValueAt(v, p).Str?
    ensures i < |Visits(w, base, v, false)|
    ensures Visits(w, base, v, false)[i] == Visit(ValueAt(v, p).s, base + JoinPointer(p), false, false)
    decreases v, 1, 0
  {
    var k, rest := p[0], p[1..];
    assert [k] + rest == p;
    SortedMembers(v.members);
    MemberPath(w, base, k, rest);
    var j := LeafIsVisited(w, base + w.member(k), v.members[k], rest);
    i := MemberAt(w, base, v, SortedKeys(v.members.Keys), k, j + 1);
  }

  lemma {:induction false} LeafInArray(w: Walker, base: string, v: Json, p: seq<string>) returns (i: nat)
    requires Spells(w) && v.Arr? && p != [] && Holds(v, p) && Clean(w, v, p) && ValueAt(v, p).Str?
    ensures i < |Visits(w, base, v, false)|
    ensures Visits(w, base, v, false)[i] == Visit(ValueAt(v, p).s, base + JoinPointer(p), false, false)
    decreases v, 1, 0
  {
    var n, rest := IndexOf(p[0], |v.items|).value, p[1..];
    assert [p[0]] + rest == p;
    ItemPath(w, base, n, rest);
    var j := LeafIsVisited(w, base + w.item(n), v.items[n], rest);
    i := ItemAt(w, base, v, |v.items|, n, j);
  }

  lemma {:induction false} MemberAt(w: Walker, base: string, v: Json, keys: seq<string>, k: string, j: nat) returns (i: nat)
    requires v.Obj? && (forall i | 0 <= i < |keys| :: keys[i] in v.members) && k in keys
    requires j < |MemberVisit(w, base, v, k, false)|
    ensures i < |MemberVisits(w, base, v, keys, false)|
    ensures MemberVisits(w, base, v, keys, false)[i] == MemberVisit(w, base, v, k, false)[j]
    decreases |keys|
  {
    var rest := keys[..|keys| - 1];
    if k == keys[|keys| - 1] {
      i := |MemberVisits(w, base, v, rest, false)| + j;
    } else {
      i := MemberAt(w, base, v, rest, k, j);
    }
  }

  lemma {:induction false} ItemAt(w: Walker, base: string, v: Json, n: nat, m: nat, j: nat) returns (i: nat)
    requires v.Arr? && m < n <= |v.items| && j < |Visits(w, base + w.item(m), v.items[m], false)|
    ensures i < |ItemVisits(w, base, v, n, false)|
    ensures ItemVisits(w, base, v, n, false)[i] == Visits(w, base + w.item(m), v.items[m], false)[j]
    decreases n
  {
    var front, own := ItemVisitsStep(w, base, v, n, false);
    if m == n - 1 {
      i := |front| + j;
      assert (front + own)[i] == own[j];
    } else {
      i := ItemAt(w, base, v, n - 1, m, j);
      assert (front + own)[i] == front[i];
    }
  }

  // ---- the report --------------------------------------------------------------------------------

  /** The finding is a detector's hit in the text, with the marks and the pointer of the visit. */
  ghost predicate HitAt(ds: seq<Detector>, f: Finding, visit: Visit) {
    f.path == visit.path && f.inKey == visit.inKey && f.underKey == visit.hidden
    && exists d :: d in ds && Detects(d, visit.text) && f.detector == d.name && f.reject == d.reject
  }

  lemma {:induction false} FoundIsHit(ds: seq<Detector>, visit: Visit, k: nat)
    requires k < |Found(ds, visit)|
    ensures HitAt(ds, Found(ds, visit)[k], visit)
  {
    var d := FindingHas(ds, AtPointer(visit.path), visit.text, k);
  }

  lemma {:induction false} WalkerSpells(ds: seq<Detector>)
    ensures Spells(WalkerOf(ds))
  {
    forall k: string ensures MemberAsToken(WalkerOf(ds), k) {}
    forall i: nat ensures ItemAsToken(WalkerOf(ds), i) {}
  }

  /** Every finding is a hit in a text of the document, at a pointer built from quiet keys only: the
      pointer names the string that was hit, or the object whose key was hit or flags what is below. */
  lemma {:induction false} FindingIsLocated(ds: seq<Detector>, w: Walker, doc: Json, i: nat) returns (p: seq<string>, visit: Visit)
    requires w == WalkerOf(ds) && i < |Report(w, doc)|
    ensures Located(w, "", doc, p, visit) && HitAt(ds, Report(w, doc)[i], visit)
    ensures Report(w, doc)[i].path == JoinPointer(p)
  {
    var visits := Visits(w, "", doc, false);
    var j, k := FoundBy(w.found, visits, i);
    visit := visits[j];
    FoundIsHit(ds, visit, k);
    WalkerSpells(ds);
    p := VisitIsLocated(w, "", doc, j);
  }

  /** In a document that is accepted, every hit in a leaf below quiet keys is reported at the leaf. */
  lemma {:induction false} HitIsReported(ds: seq<Detector>, w: Walker, doc: Json, p: seq<string>, d: Detector) returns (i: nat)
    requires w == WalkerOf(ds) && !HasRefused(Refused(ds), doc)
    requires Holds(doc, p) && Clean(w, doc, p) && ValueAt(doc, p).Str?
    requires d in ds && Detects(d, ValueAt(doc, p).s)
    ensures i < |Report(w, doc)| && Report(w, doc)[i].detector == d.name && Report(w, doc)[i].reject == d.reject
    ensures Report(w, doc)[i].path == JoinPointer(p) && !Report(w, doc)[i].inKey && !Report(w, doc)[i].underKey
  {
    var visits := Visits(w, "", doc, false);
    ReportRejects(ds, w, doc);
    WalkerSpells(ds);
    var j := LeafIsVisited(w, "", doc, p);
    var k := FindingOf(ds, AtPointer(visits[j].path), visits[j].text, d);
    i := AllReported(w.found, visits, j, k);
  }
}
