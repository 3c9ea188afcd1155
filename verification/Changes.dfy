/** ChangedPointers (model/provenance.go): the id-addressed pointers whose value differs between two
    models. */
module Changes {
  import opened Options
  import opened Json
  import opened Pointers
  import opened Sidecar

  /** A member other than the attributes differs; an absent member reads as null. */
  predicate FieldChanged(prev: Members, next: Members, k: string) {
    k in next && k !in LAYOUT && k !in SERVER_OWNED && k != "attrs"
    && next[k] != (if k in prev then prev[k] else Null)
  }

  /** diffAttrMaps: an attribute is new or has another value. */
  predicate AttrChanged(prev: Members, next: Members, k: string) {
    k in next && !(k in prev && prev[k] == next[k])
  }

  function ChangedAttrs(prev: Members, next: Members, base: Pointer): set<Pointer> {
    set k | k in next && AttrChanged(prev, next, k) :: base + [k]
  }

  /** The changed pointers of one element present in both models. */
  function ChangedMembers(prev: Members, next: Members, base: Pointer): set<Pointer> {
    (set k | k in next && FieldChanged(prev, next, k) :: base + [k])
    + ChangedAttrs(ObjectAt(prev, "attrs"), ObjectAt(next, "attrs"), base + ["attrs"])
  }

  function ChangedElement(prevs: seq<Element>, n: Element, name: string): set<Pointer> {
    var was := Find(prevs, n.id);
    if was.None? then {[name, n.id]} else ChangedMembers(was.value.members, n.members, [name, n.id])
  }

  function ChangedIn(name: string, prevs: seq<Element>, nexts: seq<Element>): set<Pointer> {
    set n, p | n in nexts && p in ChangedElement(prevs, n, name) :: p
  }

  function Changed(prev: Model, next: Model): set<Pointer> {
    ChangedAttrs(prev.attrs, next.attrs, ["attrs"])
    + (set name, p | name in COLLECTIONS && p in ChangedIn(name, prev.Collection(name), next.Collection(name)) :: p)
  }

  lemma {:induction false} FindUnique(elements: seq<Element>, e: Element)
    requires UniqueIds(elements) && e in elements
    ensures Find(elements, e.id) == Some(e)
  {
    if elements[0] != e {
      FindUnique(elements[1..], e);
    }
  }

  lemma {:induction false} ChangedElementResolves(m: Model, prevs: seq<Element>, n: Element, name: string, p: Pointer)
    requires name in COLLECTIONS && UniqueIds(m.Collection(name)) && n in m.Collection(name)
    requires p in ChangedElement(prevs, n, name)
    ensures Resolves(m, p)
    ensures p[..2] == [name, n.id] && p[0] == name && p[1] == n.id
    ensures Find(prevs, n.id).None? <==> |p| == 2
    ensures |p| <= 4 && (|p| > 2 ==> (p[2] == "attrs" <==> |p| == 4))
  {
    FindUnique(m.Collection(name), n);
    if |p| == 3 {
      assert p[2..] == [p[2]];
    } else if |p| == 4 {
      assert p[2..] == [p[2]] + [p[3]];
      assert p[2..][1..] == [p[3]];
      assert Holds(Obj(ObjectAt(n.members, "attrs")), [p[3]]);
    }
  }

  lemma {:induction false} ChangedFrom(prev: Model, next: Model, p: Pointer) returns (name: string, n: Element)
    requires p in Changed(prev, next) && p !in ChangedAttrs(prev.attrs, next.attrs, ["attrs"])
    ensures name in COLLECTIONS && n in next.Collection(name)
    ensures p in ChangedElement(prev.Collection(name), n, name)
  {
    name :| name in COLLECTIONS && p in ChangedIn(name, prev.Collection(name), next.Collection(name));
    n :| n in next.Collection(name) && p in ChangedElement(prev.Collection(name), n, name);
  }

  lemma {:induction false} ChangedRootResolves(prev: Model, next: Model, p: Pointer)
    requires p in ChangedAttrs(prev.attrs, next.attrs, ["attrs"])
    ensures Resolves(next, p) && |p| == 2 && p[0] == "attrs"
  {
    assert p[1..] == [p[1]];
    assert p[1..][1..] == [];
  }

  /** Every changed pointer names a value of the new model. */
  lemma {:induction false} ChangedResolves(prev: Model, next: Model, p: Pointer)
    requires next.Unique() && p in Changed(prev, next)
    ensures Resolves(next, p)
    ensures p[0] == "attrs" ==> |p| == 2
    ensures p[0] != "attrs" ==> (|p| == 2 <==> Find(prev.Collection(p[0]), p[1]).None?)
    ensures |p| <= 4 && (|p| > 2 ==> (p[2] == "attrs" <==> |p| == 4))
  {
    if p in ChangedAttrs(prev.attrs, next.attrs, ["attrs"]) {
      ChangedRootResolves(prev, next, p);
    } else {
      var name, n := ChangedFrom(prev, next, p);
      assert next.Unique() ==> UniqueIds(next.Collection(name));
      ChangedElementResolves(next, prev.Collection(name), n, name, p);
    }
  }

  /** No changed pointer lies below another: the order in which they are stamped does not matter. */
  lemma {:induction false} ChangedAntichain(prev: Model, next: Model, p: Pointer, q: Pointer)
    requires prev.Unique() && next.Unique()
    requires p in Changed(prev, next) && q in Changed(prev, next) && p <= q
    ensures p == q
  {
    ChangedResolves(prev, next, p);
    ChangedResolves(prev, next, q);
  }

  // ---- when nothing changed ----------------------------------------------------------------------

  /** The members agree apart from layout, server-owned members, null members, and empty versus absent
      attributes. */
  ghost predicate SameFacts(x: Members, y: Members) {
    (forall k | k !in LAYOUT && k !in SERVER_OWNED && k != "attrs" ::
       (if k in x then x[k] else Null) == (if k in y then y[k] else Null))
    && ObjectAt(x, "attrs") == ObjectAt(y, "attrs")
  }

  ghost predicate SameElements(xs: seq<Element>, ys: seq<Element>) {
    forall id :: Find(xs, id).Some? == Find(ys, id).Some?
                 && (Find(xs, id).Some? ==> SameFacts(Find(xs, id).value.members, Find(ys, id).value.members))
  }

  ghost predicate Agree(x: Model, y: Model) {
    x.attrs == y.attrs
    && forall name | name in COLLECTIONS :: SameElements(x.Collection(name), y.Collection(name))
  }

  lemma {:induction false} AttrsEqual(x: Members, y: Members, base: Pointer)
    ensures x == y <==> ChangedAttrs(x, y, base) == {} && ChangedAttrs(y, x, base) == {}
  {
    if ChangedAttrs(x, y, base) == {} && ChangedAttrs(y, x, base) == {} {
      forall k | k in y ensures k in x && x[k] == y[k] {
        assert AttrChanged(x, y, k) ==> base + [k] in ChangedAttrs(x, y, base);
      }
      forall k | k in x ensures k in y {
        assert AttrChanged(y, x, k) ==> base + [k] in ChangedAttrs(y, x, base);
      }
    }
  }

  lemma {:induction false} MembersAgree(x: Members, y: Members, base: Pointer)
    ensures SameFacts(x, y) <==> ChangedMembers(x, y, base) == {} && ChangedMembers(y, x, base) == {}
  {
    AttrsEqual(ObjectAt(x, "attrs"), ObjectAt(y, "attrs"), base + ["attrs"]);
    if ChangedMembers(x, y, base) == {} && ChangedMembers(y, x, base) == {} {
      forall k | k !in LAYOUT && k !in SERVER_OWNED && k != "attrs"
        ensures (if k in x then x[k] else Null) == (if k in y then y[k] else Null)
      {
        assert FieldChanged(x, y, k) ==> base + [k] in ChangedMembers(x, y, base);
        assert FieldChanged(y, x, k) ==> base + [k] in ChangedMembers(y, x, base);
      }
    }
  }

  lemma {:induction false} ElementsAgree(name: string, xs: seq<Element>, ys: seq<Element>)
    requires UniqueIds(xs) && UniqueIds(ys)
    ensures SameElements(xs, ys) <==> ChangedIn(name, xs, ys) == {} && ChangedIn(name, ys, xs) == {}
  {
    if ChangedIn(name, xs, ys) == {} && ChangedIn(name, ys, xs) == {} {
      forall id
        ensures Find(xs, id).Some? == Find(ys, id).Some?
        ensures Find(xs, id).Some? ==> SameFacts(Find(xs, id).value.members, Find(ys, id).value.members)
      {
        if Find(ys, id).Some? {
          NothingChangedAt(name, xs, ys, id);
        }
        if Find(xs, id).Some? {
          NothingChangedAt(name, ys, xs, id);
        }
        if Find(xs, id).Some? {
          MembersAgree(Find(xs, id).value.members, Find(ys, id).value.members, [name, id]);
        }
      }
    }
    if SameElements(xs, ys) {
      SameGivesNothing(name, xs, ys);
      SameGivesNothing(name, ys, xs);
    }
  }

  lemma {:induction false} NothingChangedAt(name: string, xs: seq<Element>, ys: seq<Element>, id: string)
    requires ChangedIn(name, xs, ys) == {} && Find(ys, id).Some?
    ensures Find(xs, id).Some?
    ensures ChangedMembers(Find(xs, id).value.members, Find(ys, id).value.members, [name, id]) == {}
  {
    var n := Find(ys, id).value;
    assert forall p | p in ChangedElement(xs, n, name) :: p in ChangedIn(name, xs, ys);
    assert Find(xs, id).None? ==> [name, id] in ChangedElement(xs, n, name);
  }

  lemma {:induction false} SameGivesNothing(name: string, xs: seq<Element>, ys: seq<Element>)
    requires UniqueIds(xs) && UniqueIds(ys) && SameElements(xs, ys)
    ensures ChangedIn(name, xs, ys) == {}
  {
    forall n | n in ys ensures ChangedElement(xs, n, name) == {} {
      FindUnique(ys, n);
      assert Find(xs, n.id).Some? == Find(ys, n.id).Some?;
      MembersAgree(Find(xs, n.id).value.members, n.members, [name, n.id]);
    }
  }

  /** Nothing changes in either direction exactly when the models agree on every fact. */
  lemma {:induction false} NoChangeIsAgreement(x: Model, y: Model)
    requires x.Unique() && y.Unique()
    ensures Changed(x, y) == {} && Changed(y, x) == {} <==> Agree(x, y)
  {
    AttrsEqual(x.attrs, y.attrs, ["attrs"]);
    forall name | name in COLLECTIONS
      ensures SameElements(x.Collection(name), y.Collection(name))
              <==> ChangedIn(name, x.Collection(name), y.Collection(name)) == {}
                   && ChangedIn(name, y.Collection(name), x.Collection(name)) == {}
    {
      ElementsAgree(name, x.Collection(name), y.Collection(name));
    }
    EmptyByCollection(x, y);
    EmptyByCollection(y, x);
  }

  lemma {:induction false} EmptyByCollection(x: Model, y: Model)
    ensures Changed(x, y) == {} <==>
            ChangedAttrs(x.attrs, y.attrs, ["attrs"]) == {}
            && forall name | name in COLLECTIONS :: ChangedIn(name, x.Collection(name), y.Collection(name)) == {}
  {
    if Changed(x, y) == {} {
      forall name, p | name in COLLECTIONS && p in ChangedIn(name, x.Collection(name), y.Collection(name))
        ensures p in Changed(x, y)
      {}
    }
  }
}
