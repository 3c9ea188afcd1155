/** What the theorems ask of their inputs, spelled out, and that it can be met. */
module AssumptionLaws {
  import opened Options
  import opened Json
  import opened Text
  import opened Pointers
  import opened Sidecar
  import opened Stamping
  import Imports
  import Runs
  import Chain
  import Cel
  import Graphs
  import GraphQueries
  import Patches
  import Foreseen

  // ---- the chain ---------------------------------------------------------------------------------

  /** The bar and the slash exchanged. */
  function Swapped(s: string): (r: string)
    ensures |r| == |s| && forall i | 0 <= i < |s| :: r[i] == if s[i] == '|' then '/' else if s[i] == '/' then '|' else s[i]
  {
    seq(|s|, i requires 0 <= i < |s| => if s[i] == '|' then '/' else if s[i] == '/' then '|' else s[i])
  }

  lemma SwappedTwice(s: string)
    ensures Swapped(Swapped(s)) == s
  {}

  /** A text without bars for each text, all of them apart and none of them sixty-four zeros. */
  function Sealed(s: string): string { "x" + Swapped(Escape(Swapped(s))) }

  lemma {:induction false} SealedApart(a: string, b: string)
    ensures Sealed(a) == Sealed(b) ==> a == b
    ensures '|' !in Sealed(a) && Sealed(a) != Chain.Genesis()
  {
    EscapeRoundTrip(Swapped(a));
    EscapeRoundTrip(Swapped(b));
    SwappedTwice(a);
    SwappedTwice(b);
    SwappedTwice(Escape(Swapped(a)));
    SwappedTwice(Escape(Swapped(b)));
    assert Sealed(a)[1..] == Swapped(Escape(Swapped(a))) && Sealed(b)[1..] == Swapped(Escape(Swapped(b)));
    assert Sealed(a)[0] == 'x' && Chain.Genesis()[0] == '0';
  }

  /** What the chain asks of its hash and its time stamps can be had. */
  lemma {:induction false} FaithfulIsPossible() returns (p: Chain.Primitives)
    ensures Chain.Faithful(p)
  {
    p := Chain.Primitives(s => Sealed(s), s => Some(s), t => Itoa(t));
    forall a, b ensures p.hash(a) == p.hash(b) ==> a == b {
      SealedApart(a, b);
    }
    forall a ensures p.hash(a) != Chain.Genesis() && Chain.SEPARATOR !in p.hash(a) {
      SealedApart(a, a);
    }
    forall t, u | p.stamp(Chain.Micro(t)) == p.stamp(Chain.Micro(u)) ensures Chain.Micro(t) == Chain.Micro(u) {
      ItoaInjective(Chain.Micro(t), Chain.Micro(u));
    }
    forall t ensures Chain.SEPARATOR !in p.stamp(t) {
      Chain.NumberPlain(t);
    }
  }

  // ---- conditions --------------------------------------------------------------------------------

  /** A helper that answers one concrete value whatever it is given is monotone. */
  lemma {:induction false} ConstantIsMonotone(answer: Cel.Value)
    requires Cel.Concrete(answer)
    ensures Cel.Monotone((fn: string, vals: seq<Cel.Value>) => answer)
  {
    Cel.ConcreteRefines(answer);
  }

  /** A value is concrete when no unknown is anywhere in it. */
  lemma {:induction false} ConcreteMeans(v: Cel.Value)
    ensures Cel.Scalar(v) || v.ErrV? ==> Cel.Concrete(v)
    ensures v.ListV? ==> (Cel.Concrete(v) <==> forall x | x in v.items :: Cel.Concrete(x))
    ensures v.MapV? ==> (Cel.Concrete(v) <==> forall k | k in v.m :: Cel.Concrete(v.m[k]))
    ensures v.GraphV? ==> (Cel.Concrete(v) <==> forall k | k in v.attrs :: Cel.Concrete(v.attrs[k]))
    ensures v.UnknownV? ==> !Cel.Concrete(v)
  {
    if v.ListV? {
      forall i | 0 <= i < |v.items| ensures v.items[i] in v.items {}
    }
  }

  /** A condition is literate when its literals are concrete; every name is. */
  lemma {:induction false} LiterateMeans(e: Cel.Expr)
    ensures e.Ident? ==> Cel.Literate(e)
    ensures e.Lit? ==> (Cel.Literate(e) <==> Cel.Concrete(e.v))
    ensures e.Select? ==> (Cel.Literate(e) <==> Cel.Literate(e.operand))
    ensures e.ListE? ==> (Cel.Literate(e) <==> forall x | x in e.elems :: Cel.Literate(x))
    ensures e.Call? ==> (Cel.Literate(e) <==> (e.target.Some? ==> Cel.Literate(e.target.value)) && forall x | x in e.args :: Cel.Literate(x))
    ensures e.Quantified? ==> (Cel.Literate(e) <==> Cel.Literate(e.range) && Cel.Literate(e.body))
  {
    if e.ListE? {
      forall i | 0 <= i < |e.elems| ensures e.elems[i] in e.elems {}
    }
    if e.Call? {
      forall i | 0 <= i < |e.args| ensures e.args[i] in e.args {}
    }
  }

  // ---- provenance --------------------------------------------------------------------------------

  /** Pointers of whole elements are an antichain. */
  lemma AntichainOfElements(carried: seq<Pointer>)
    requires forall c | c in carried :: |c| == 2
    ensures Imports.Antichain(carried)
  {}

  /** A patch of a stored model that keeps ids apart and leaves the sidecar alone is accepted. */
  lemma {:induction false} SoundPatchIsAccepted(prev: Model, next: Model)
    requires next.prov == prev.prov
    requires forall coll, i, j | coll in ["nodes", "edges", "groups", "identities"] && 0 <= i < j < |prev.Collection(coll)| ::
               prev.Collection(coll)[i].id != prev.Collection(coll)[j].id
    requires forall coll, i, j | coll in ["nodes", "edges", "groups", "identities"] && 0 <= i < j < |next.Collection(coll)| ::
               next.Collection(coll)[i].id != next.Collection(coll)[j].id
    requires forall k | k in prev.prov :: Resolves(prev, k)
    ensures Accepted(prev, next) && Runs.Sound(prev)
  {
    ApartIsUnique(prev);
    ApartIsUnique(next);
  }

  lemma {:induction false} ApartIsUnique(m: Model)
    requires forall coll, i, j | coll in ["nodes", "edges", "groups", "identities"] && 0 <= i < j < |m.Collection(coll)| ::
               m.Collection(coll)[i].id != m.Collection(coll)[j].id
    ensures m.Unique()
  {
    assert m.Collection("nodes") == m.nodes && m.Collection("edges") == m.edges;
    assert m.Collection("groups") == m.groups && m.Collection("identities") == m.identities;
    assert "nodes" in ["nodes", "edges", "groups", "identities"] && "edges" in ["nodes", "edges", "groups", "identities"];
    assert "groups" in ["nodes", "edges", "groups", "identities"] && "identities" in ["nodes", "edges", "groups", "identities"];
  }

  /** Where the theorems over runs speak of a pointer: at or below a node that is no note. */
  lemma {:induction false} AtNodeIff(m: Model, id: string, rest: Pointer)
    ensures Runs.AtNode(m, ["nodes", id] + rest) <==>
            Resolves(m, ["nodes", id] + rest) && StringAt(Find(m.nodes, id).value.members, "type") != "note"
    ensures forall p | Runs.AtNode(m, p) :: |p| >= 2 && p[0] == "nodes"
  {
    assert (["nodes", id] + rest)[0] == "nodes" && (["nodes", id] + rest)[1] == id;
  }

  // ---- requests, ids, attributes -----------------------------------------------------------------

  /** A request is clean when no list entry holds the separator, no list is one empty text, and the attribute types are
      not the one name that marks the other form. */
  lemma {:induction false} CleanMeans(types: seq<string>, kinds: seq<string>, others: seq<string>, attr: string)
    requires forall s | s in types + kinds + others :: s != "" && forall i | 0 <= i < |s| :: s[i] > 1 as char
    ensures GraphQueries.Clean(Graphs.ByKinds(types, kinds, others, attr))
    ensures GraphQueries.Clean(Graphs.ByFunctions(types, kinds, others))
  {
    assert forall s | s in types :: s in types + kinds + others;
    assert forall s | s in kinds :: s in types + kinds + others;
    assert forall s | s in others :: s in types + kinds + others;
    assert [1 as char] + "functions" == GraphQueries.FUNCTIONS_FORM && GraphQueries.FUNCTIONS_FORM[0] == 1 as char;
  }

  /** The ids of the schema: up to sixty-four letters, digits, underscores, and after the first, points, colons and
      hyphens. */
  lemma {:induction false} SchemaIdMeans(c: char, rest: string)
    ensures Patches.SchemaId([c] + rest) <==>
            |rest| <= 63 && ('a' <= c <= 'z' || 'A' <= c <= 'Z' || '0' <= c <= '9' || c == '_')
            && forall i | 0 <= i < |rest| ::
                 'a' <= rest[i] <= 'z' || 'A' <= rest[i] <= 'Z' || '0' <= rest[i] <= '9' || rest[i] in {'_', '.', ':', '-'}
  {
    var id := [c] + rest;
    assert id[0] == c && forall i | 0 <= i < |rest| :: rest[i] == id[i + 1];
    if Patches.SchemaId(id) {
      forall i | 0 <= i < |rest| ensures Patches.IdChar(rest[i]) {
        assert Patches.IdChar(id[i + 1]);
      }
    }
    forall i | 0 < i < |id| ensures id[i] == rest[i - 1] {}
  }

  /** Attributes as the schema has them: an object that holds no object and no array where a migration writes. */
  lemma {:induction false} SchemaItemsMean(items: seq<Json>)
    requires forall j | j in items && j.Obj? && "attrs" in j.members ::
               j.members["attrs"].Obj?
               && forall w | w in ["x_migrated_from", "identity_id"] && w in j.members["attrs"].members ::
                    !j.members["attrs"].members[w].Obj? && !j.members["attrs"].members[w].Arr?
    ensures Foreseen.SchemaItems(items)
  {
    forall i | 0 <= i < |items| && items[i].Obj? ensures Foreseen.SchemaAttrs(items[i].members) {
      assert items[i] in items;
    }
  }
}
