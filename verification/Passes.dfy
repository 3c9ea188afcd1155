/** Rewrites of the elements of one collection of a raw model document, and what they do to the
    provenance sidecar (model/migrate; resolution at model/provenance.go:126-217). */
module Passes {
  import opened Options
  import opened Json
  import opened Pointers
  import Sidecar

  type Entries = map<Pointer, Json>

  /** A decoded document: its root members, and its provenance object apart, keyed by tokens. */
  datatype Doc = Doc(members: Members, prov: Option<Entries>)

  function Items(d: Doc, coll: string): seq<Json> {
    if coll in d.members && d.members[coll].Arr? then d.members[coll].items else []
  }

  function IdOf(e: Members): Option<string> {
    if "id" in e && e["id"].Str? then Some(e["id"].s) else None
  }

  /** The element an id names: the last one, where ids repeat. */
  function ElementOf(items: seq<Json>, id: string): Option<Members> {
    if items == [] then None
    else
      var last := items[|items| - 1];
      if last.Obj? && IdOf(last.members) == Some(id) then Some(last.members) else ElementOf(items[..|items| - 1], id)
  }

  predicate KeyResolves(d: Doc, k: Pointer) {
    |k| >= 2
    && if k[0] == "attrs" then Holds(Obj(ObjectAt(d.members, "attrs")), k[1..])
       else k[0] in Sidecar.COLLECTIONS && ResolvesIn(ElementOf(Items(d, k[0]), k[1]), k[2..])
  }

  predicate ResolvesIn(el: Option<Members>, path: Pointer) {
    el.Some? && (path != [] ==> path[0] !in Sidecar.LAYOUT && path[0] !in Sidecar.SERVER_OWNED) && Holds(Obj(el.value), path)
  }

  function Keys(d: Doc): set<Pointer> { if d.prov.Some? then d.prov.value.Keys else {} }

  /** The sidecar is sound: every key resolves. */
  predicate SoundDoc(d: Doc) {
    forall k | k in Keys(d) :: KeyResolves(d, k)
  }

  // ---- dropping sidecar entries ------------------------------------------------------------------

  predicate UnderAny(prefixes: set<Pointer>, k: Pointer) {
    exists p :: p in prefixes && p <= k
  }

  predicate BelowAny(prefixes: set<Pointer>, k: Pointer) {
    exists p :: p in prefixes && p < k
  }

  /** The entries under the prefixes go; an emptied sidecar goes with them. */
  function Dropped(prov: Option<Entries>, drops: set<Pointer>): Option<Entries> {
    if prov.None? then None
    else
      var kept := map k | k in prov.value && !UnderAny(drops, k) :: prov.value[k];
      if kept == map[] && prov.value != map[] then None else Some(kept)
  }

  lemma {:induction false} DroppedKeys(prov: Option<Entries>, drops: set<Pointer>, d: Doc, e: Doc)
    requires d.prov == prov && e.prov == Dropped(prov, drops)
    ensures forall k :: k in Keys(e) <==> k in Keys(d) && !UnderAny(drops, k)
  {
    if prov.Some? {
      var kept := map k | k in prov.value && !UnderAny(drops, k) :: prov.value[k];
      if kept == map[] {
        forall k | k in prov.value ensures UnderAny(drops, k) {
          assert k in kept <==> !UnderAny(drops, k);
        }
      }
    }
  }

  lemma {:induction false} UnderUnion(a: set<Pointer>, b: set<Pointer>, k: Pointer)
    ensures UnderAny(a + b, k) <==> UnderAny(a, k) || UnderAny(b, k)
  {
    if UnderAny(a, k) {
      var p :| p in a && p <= k;
      assert p in a + b;
    }
    if UnderAny(b, k) {
      var p :| p in b && p <= k;
      assert p in a + b;
    }
  }

  /** Dropping in two goes is dropping at once. */
  lemma {:induction false} DroppedTwice(prov: Option<Entries>, a: set<Pointer>, b: set<Pointer>)
    ensures Dropped(Dropped(prov, a), b) == Dropped(prov, a + b)
  {
    if prov.Some? {
      var m := prov.value;
      var kept := map k | k in m && !UnderAny(a, k) :: m[k];
      var twice := map k | k in kept && !UnderAny(b, k) :: kept[k];
      var once := map k | k in m && !UnderAny(a + b, k) :: m[k];
      forall k | k in m ensures k in once <==> k in twice {
        UnderUnion(a, b, k);
      }
      assert once == twice;
    }
  }

  lemma {:induction false} DroppedNothing(prov: Option<Entries>)
    ensures Dropped(prov, {}) == prov
  {
    if prov.Some? {
      var kept := map k | k in prov.value && !UnderAny({}, k) :: prov.value[k];
      assert kept == prov.value;
    }
  }

  // ---- a pass ------------------------------------------------------------------------------------

  /** What a pass does to an element: its new members, the paths whose values it removes, and the paths
      it overwrites with a plain value. */
  datatype Pass = Pass(coll: string, rewrite: Members -> Members, removed: Members -> set<Pointer>, lost: Members -> set<Pointer>)

  function ItemAfter(p: Pass, j: Json): Json {
    if j.Obj? then Obj(p.rewrite(j.members)) else j
  }

  function ItemsAfter(p: Pass, items: seq<Json>): (r: seq<Json>)
    ensures |r| == |items|
  {
    if items == [] then [] else ItemsAfter(p, items[..|items| - 1]) + [ItemAfter(p, items[|items| - 1])]
  }

  function Address(p: Pass, e: Members): Pointer { [p.coll, StringAt(e, "id")] }

  function ItemDrops(p: Pass, j: Json): set<Pointer> {
    if j.Obj? then set r | r in p.removed(j.members) :: Address(p, j.members) + r else {}
  }

  function Drops(p: Pass, items: seq<Json>): set<Pointer> {
    if items == [] then {} else Drops(p, items[..|items| - 1]) + ItemDrops(p, items[|items| - 1])
  }

  function Applied(p: Pass, d: Doc): Doc {
    if p.coll in d.members && d.members[p.coll].Arr?
    then Doc(d.members[p.coll := Arr(ItemsAfter(p, Items(d, p.coll)))], Dropped(d.prov, Drops(p, Items(d, p.coll))))
    else d
  }

  /** A path of the element that is not removed still names a value, unless it lies below an overwritten
      one. */
  ghost predicate PathKept(p: Pass, e: Members, q: Pointer) {
    Holds(Obj(e), q) && !UnderAny(p.removed(e), q) ==> (Holds(Obj(p.rewrite(e)), q) <==> !BelowAny(p.lost(e), q))
  }

  ghost predicate PathsKept(p: Pass, e: Members) {
    IdOf(p.rewrite(e)) == IdOf(e) && forall q :: PathKept(p, e, q)
  }

  ghost predicate Apart(p: Pass, e: Members, f: Members) {
    forall r, l | r in p.removed(e) && l in p.lost(f) :: !(r <= l) && !(l <= r)
  }

  ghost predicate WellBehaved(p: Pass) {
    p.coll in Sidecar.COLLECTIONS && (forall e :: PathsKept(p, e)) && forall e, f :: Apart(p, e, f)
  }

  /** The key lies below a value the pass overwrites. */
  predicate Loses(p: Pass, d: Doc, k: Pointer) {
    |k| > 2 && k[0] == p.coll
    && var el := ElementOf(Items(d, p.coll), k[1]);
       el.Some? && BelowAny(p.lost(el.value), k[2..])
  }

  lemma {:induction false} ElementAfter(p: Pass, items: seq<Json>, id: string)
    requires forall e :: PathsKept(p, e)
    ensures ElementOf(ItemsAfter(p, items), id)
            == if ElementOf(items, id).Some? then Some(p.rewrite(ElementOf(items, id).value)) else None
  {
    if items != [] {
      var last := items[|items| - 1];
      ElementAfter(p, items[..|items| - 1], id);
      assert ItemsAfter(p, items)[..|items| - 1] == ItemsAfter(p, items[..|items| - 1]);
      assert last.Obj? ==> PathsKept(p, last.members);
    }
  }

  lemma {:induction false} DropsAre(p: Pass, items: seq<Json>, k: Pointer) returns (e: Members, r: Pointer)
    requires UnderAny(Drops(p, items), k)
    ensures Obj(e) in items && r in p.removed(e) && Address(p, e) + r <= k
  {
    var rest, last := items[..|items| - 1], items[|items| - 1];
    UnderUnion(Drops(p, rest), ItemDrops(p, last), k);
    if UnderAny(Drops(p, rest), k) {
      e, r := DropsAre(p, rest, k);
    } else {
      var q :| q in ItemDrops(p, last) && q <= k;
      e := last.members;
      r :| r in p.removed(e) && Address(p, e) + r == q;
    }
  }

  lemma {:induction false} ElementDrops(p: Pass, items: seq<Json>, id: string, k: Pointer, path: Pointer)
    requires ElementOf(items, id).Some? && k == [p.coll, id] + path
    requires UnderAny(p.removed(ElementOf(items, id).value), path)
    ensures UnderAny(Drops(p, items), k)
  {
    var rest, last := items[..|items| - 1], items[|items| - 1];
    UnderUnion(Drops(p, rest), ItemDrops(p, last), k);
    if last.Obj? && IdOf(last.members) == Some(id) {
      var r :| r in p.removed(last.members) && r <= path;
      assert Address(p, last.members) + r in ItemDrops(p, last);
      assert Address(p, last.members) == [p.coll, id];
      assert Address(p, last.members) + r <= k;
    } else {
      ElementDrops(p, rest, id, k, path);
    }
  }

  lemma {:induction false} PrefixesMeet(a: Pointer, b: Pointer, k: Pointer)
    requires a <= k && b <= k
    ensures a <= b || b <= a
  {
    if |a| <= |b| {
      assert a == k[..|a|] == b[..|a|];
    } else {
      assert b == k[..|b|] == a[..|b|];
    }
  }

  /** A key below an overwritten value is never dropped. */
  lemma {:induction false} LostIsKept(p: Pass, d: Doc, k: Pointer)
    requires WellBehaved(p) && Loses(p, d, k)
    ensures !UnderAny(Drops(p, Items(d, p.coll)), k)
  {
    if UnderAny(Drops(p, Items(d, p.coll)), k) {
      var e, r := DropsAre(p, Items(d, p.coll), k);
      var f := ElementOf(Items(d, p.coll), k[1]).value;
      var l :| l in p.lost(f) && l < k[2..];
      assert Apart(p, e, f);
      AddressTail(Address(p, e), r, k);
      PrefixesMeet(r, l, k[2..]);
    }
  }

  lemma {:induction false} AddressTail(a: Pointer, r: Pointer, k: Pointer)
    requires |a| == 2 && a + r <= k
    ensures r <= k[2..]
  {
    assert r == (a + r)[2..] == k[..|a + r|][2..];
    assert k[2..][..|r|] == k[2..|r| + 2];
  }

  /** One key of the rewritten document. */
  lemma {:induction false} KeyAfter(p: Pass, d: Doc, k: Pointer)
    requires WellBehaved(p) && KeyResolves(d, k) && !UnderAny(Drops(p, Items(d, p.coll)), k)
    ensures KeyResolves(Applied(p, d), k) <==> !Loses(p, d, k)
  {
    var items := Items(d, p.coll);
    if k[0] == p.coll {
      var el := ElementOf(items, k[1]);
      var path := k[2..];
      assert k == [p.coll, k[1]] + path;
      ElementAfter(p, items, k[1]);
      assert PathsKept(p, el.value) && PathKept(p, el.value, path);
      if UnderAny(p.removed(el.value), path) {
        ElementDrops(p, items, k[1], k, path);
      }
      assert path == [] ==> !BelowAny(p.lost(el.value), path);
    } else {
      assert Items(Applied(p, d), k[0]) == Items(d, k[0]);
    }
  }

  /** No stored key lies below a value the pass overwrites. */
  predicate NoneLost(p: Pass, d: Doc) {
    forall k | k in Keys(d) :: !Loses(p, d, k)
  }

  /** A pass keeps a sound sidecar sound exactly when no stored key lies below a value it overwrites. */
  lemma {:induction false} PassKeepsSound(p: Pass, d: Doc)
    requires WellBehaved(p) && SoundDoc(d)
    ensures SoundDoc(Applied(p, d)) <==> NoneLost(p, d)
  {
    var after := Applied(p, d);
    var drops := Drops(p, Items(d, p.coll));
    if p.coll in d.members && d.members[p.coll].Arr? {
      DroppedKeys(d.prov, drops, d, after);
    } else {
      assert Items(d, p.coll) == [];
      assert forall k :: !Loses(p, d, k);
    }
    forall k | k in Keys(d) && !UnderAny(drops, k) ensures KeyResolves(after, k) <==> !Loses(p, d, k) {
      KeyAfter(p, d, k);
    }
    forall k | k in Keys(d) && Loses(p, d, k) ensures !UnderAny(drops, k) {
      LostIsKept(p, d, k);
    }
  }

  // ---- running a pass again ----------------------------------------------------------------------

  ghost predicate SettlesOn(p: Pass, e: Members) {
    p.rewrite(p.rewrite(e)) == p.rewrite(e) && p.removed(p.rewrite(e)) == {}
  }

  lemma {:induction false} ItemsSettle(p: Pass, items: seq<Json>)
    requires forall e :: SettlesOn(p, e)
    ensures ItemsAfter(p, ItemsAfter(p, items)) == ItemsAfter(p, items)
    ensures Drops(p, ItemsAfter(p, items)) == {}
  {
    if items != [] {
      var rest, last := items[..|items| - 1], items[|items| - 1];
      ItemsSettle(p, rest);
      assert ItemsAfter(p, items)[..|rest|] == ItemsAfter(p, rest);
      assert last.Obj? ==> SettlesOn(p, last.members);
      assert ItemDrops(p, ItemAfter(p, last)) == {};
    }
  }

  /** A pass that settles each element leaves its own result alone. */
  lemma {:induction false} PassSettles(p: Pass, d: Doc)
    requires forall e :: SettlesOn(p, e)
    ensures Applied(p, Applied(p, d)) == Applied(p, d)
  {
    if p.coll in d.members && d.members[p.coll].Arr? {
      var after := Applied(p, d);
      ItemsSettle(p, Items(d, p.coll));
      DroppedNothing(after.prov);
      assert after.members[p.coll := Arr(ItemsAfter(p, Items(after, p.coll)))] == after.members;
    }
  }
}
