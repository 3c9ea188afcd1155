/** The provenance sidecar (model/provenance.go): a map from pointers to claims, the model it belongs
    to, and how the claim that governs a pointer is found. */
module Sidecar {
  import opened Options
  import opened Json
  import opened Pointers

  /** Weakest first; `stale` is computed, never a kind. */
  datatype Kind = Declared | Imported | Observed

  function Rank(k: Kind): nat {
    match k case Declared => 0 case Imported => 1 case Observed => 2
  }

  function Weaker(x: Kind, y: Kind): Kind {
    if Rank(x) <= Rank(y) then x else y
  }

  /** Nanoseconds; None is Go's nil. */
  type Time = Option<int>

  function CmpTime(x: Time, y: Time): int {
    if x.None? && y.None? then 0
    else if x.None? then -1
    else if y.None? then 1
    else if x.value < y.value then -1
    else if x.value > y.value then 1
    else 0
  }

  datatype Entry = Entry(
    kind: Kind,
    identifier: string,
    version: string,
    hash: string,
    importedBy: string,
    importedAt: Time,
    fetchedAt: Time,
    cadenceDays: int,
    signatureVerified: bool,
    lastSeenImport: string,
    declaredBy: string,
    declaredAt: Time)

  /** The entry that names a kind and a source and nothing else. */
  function Plain(kind: Kind, identifier: string): Entry {
    Entry(kind, identifier, "", "", "", None, None, 0, false, "", "", None)
  }

  type Provenance = map<Pointer, Entry>

  /** An element of a collection in its JSON form. Ids are unique in a collection (validation), so
      "the element with the id" is well defined. */
  datatype Element = Element(id: string, members: Members)

  function Find(elements: seq<Element>, id: string): (r: Option<Element>)
    ensures r.Some? ==> r.value in elements && r.value.id == id
    ensures r.None? ==> forall e | e in elements :: e.id != id
  {
    if elements == [] then None
    else if elements[0].id == id then Some(elements[0])
    else Find(elements[1..], id)
  }

  predicate UniqueIds(elements: seq<Element>) {
    forall i, j | 0 <= i < j < |elements| :: elements[i].id != elements[j].id
  }

  datatype Model = Model(
    prov: Provenance,
    nodes: seq<Element>,
    edges: seq<Element>,
    groups: seq<Element>,
    identities: seq<Element>,
    attrs: Members)
  {
    function Collection(name: string): seq<Element> {
      if name == "nodes" then nodes
      else if name == "edges" then edges
      else if name == "groups" then groups
      else if name == "identities" then identities
      else []
    }

    predicate Unique() {
      UniqueIds(nodes) && UniqueIds(edges) && UniqueIds(groups) && UniqueIds(identities)
    }
  }

  const COLLECTIONS: set<string> := {"nodes", "edges", "groups", "identities"}

  const LAYOUT: set<string> := {"position", "positions", "size", "icon"}

  const SERVER_OWNED: set<string> := {"source", "id"}

  function SourceOf(n: Element): string { StringAt(n.members, "source") }

  predicate IsNote(n: Element) { StringAt(n.members, "type") == "note" }

  function NodePointer(id: string): Pointer { ["nodes", id] }

  // ---- resolution --------------------------------------------------------------------------------

  /** The key names an element, a member of one (layout and server-owned members excluded), a value
      inside one, or a root attribute. */
  predicate Resolves(m: Model, key: Pointer) {
    |key| >= 2
    && if key[0] == "attrs" then Holds(Obj(m.attrs), key[1..])
       else
         var el := Find(m.Collection(key[0]), key[1]);
         el.Some?
         && (|key| > 2 ==> key[2] !in LAYOUT && key[2] !in SERVER_OWNED)
         && Holds(Obj(el.value.members), key[2..])
  }

  predicate AllResolve(m: Model) {
    forall k | k in m.prov :: Resolves(m, k)
  }

  /** A key that resolves has only prefixes of two tokens or more that resolve. */
  lemma ResolvesPrefix(m: Model, key: Pointer, n: nat)
    requires Resolves(m, key) && 2 <= n <= |key|
    ensures Resolves(m, key[..n])
  {
    if key[0] == "attrs" {
      HoldsPrefix(Obj(m.attrs), key[1..], n - 1);
      assert key[..n][1..] == key[1..][..n - 1];
    } else {
      var el := Find(m.Collection(key[0]), key[1]).value;
      HoldsPrefix(Obj(el.members), key[2..], n - 2);
      assert key[..n][2..] == key[2..][..n - 2];
    }
  }

  // ---- reading -----------------------------------------------------------------------------------

  /** The upgrade mapping of a node's source; an empty source is design. */
  function SourceToKind(source: string): Kind {
    if source == "declared" then Imported else if source == "observed" then Observed else Declared
  }

  function KindToSource(kind: Kind): string {
    match kind case Imported => "declared" case Observed => "observed" case Declared => "design"
  }

  /** The source written from a kind is read back as that kind. */
  lemma SourceRoundTrip(kind: Kind)
    ensures SourceToKind(KindToSource(kind)) == kind
  {}

  const PRE_V11_IMPORT := "pre-1.1 import"

  /** The entry the upgrade mapping resolves for a node with this source. */
  function UpgradeEntry(n: Element, source: string): Entry {
    var kind := SourceToKind(source);
    var ref := StringAt(n.members, "external_ref");
    Plain(kind, if kind != Imported then "" else if ref == "" then PRE_V11_IMPORT else ref)
  }

  function Parent(p: Pointer): Pointer
    requires p != []
  {
    p[..|p| - 1]
  }

  /** The most specific stored key at or above p. */
  function Governor(keys: set<Pointer>, p: Pointer): (g: Option<Pointer>)
    ensures g.Some? ==> g.value in keys && g.value <= p && g.value != []
    decreases |p|
  {
    if p == [] then None
    else if p in keys then Some(p)
    else Governor(keys, Parent(p))
  }

  /** Governor is the longest stored prefix: the independent reading of "most specific key wins". */
  lemma {:induction false} GovernorIsLongest(keys: set<Pointer>, p: Pointer)
    ensures forall k | k in keys && k <= p && k != [] ::
              Governor(keys, p).Some? && k <= Governor(keys, p).value
    decreases |p|
  {
    if p != [] && p !in keys {
      GovernorIsLongest(keys, Parent(p));
      forall k | k in keys && k <= p && k != []
        ensures Governor(keys, p).Some? && k <= Governor(keys, p).value
      {
        assert k != p && k == p[..|k|];
        assert k <= Parent(p);
      }
    }
  }

  /** Two key sets that agree on the prefixes of p have the same governor of p. */
  lemma {:induction false} GovernorLocal(a: set<Pointer>, b: set<Pointer>, p: Pointer)
    requires forall n | 0 < n <= |p| :: p[..n] in a <==> p[..n] in b
    ensures Governor(a, p) == Governor(b, p)
    decreases |p|
  {
    if p != [] {
      assert p[..|p|] == p;
      forall n | 0 < n <= |Parent(p)| ensures Parent(p)[..n] in a <==> Parent(p)[..n] in b {
        assert Parent(p)[..n] == p[..n];
      }
      GovernorLocal(a, b, Parent(p));
    }
  }

  /** The stored claim that governs p. */
  function Claim(prov: Provenance, p: Pointer): Option<Entry> {
    var g := Governor(prov.Keys, p);
    if g.None? then None else Some(prov[g.value])
  }

  /** Upgrade on read: the claim of a pointer no stored key governs, outside the edges. */
  function Upgraded(nodes: seq<Element>, p: Pointer): Entry {
    if |p| >= 2 && p[0] == "nodes" && Find(nodes, p[1]).Some? then
      var n := Find(nodes, p[1]).value;
      UpgradeEntry(n, SourceOf(n))
    else Plain(Declared, "")
  }

  /** The claim of a pointer outside the edges: stored, else upgraded from the node's source, else
      declared. */
  function BaseProvenance(m: Model, p: Pointer): Entry {
    var c := Claim(m.prov, p);
    if c.Some? then c.value else Upgraded(m.nodes, p)
  }

  /** ProvenanceOf: an edge without a stored claim takes the weaker of its endpoints' claims. */
  function ProvenanceOf(m: Model, p: Pointer): Entry {
    if Derived(m, p) then
      var e := Find(m.edges, p[1]).value;
      var from, to := BaseProvenance(m, FromOf(e)), BaseProvenance(m, ToOf(e));
      if Weaker(from.kind, to.kind) == from.kind then Plain(from.kind, from.identifier)
      else Plain(to.kind, to.identifier)
    else BaseProvenance(m, p)
  }

  function KindOf(m: Model, p: Pointer): Kind { ProvenanceOf(m, p).kind }

  function FromOf(e: Element): Pointer { NodePointer(StringAt(e.members, "from")) }

  function ToOf(e: Element): Pointer { NodePointer(StringAt(e.members, "to")) }

  /** p lies at or below an edge no stored key governs: its claim is derived from the endpoints. */
  predicate Derived(m: Model, p: Pointer) {
    |p| >= 2 && p[0] == "edges" && Claim(m.prov, p).None? && Find(m.edges, p[1]).Some?
  }

  /** Two entries make the same claim: every field but the declaration date is equal. */
  predicate SameClaim(x: Entry, y: Entry) {
    x.(declaredAt := None) == y.(declaredAt := None)
  }

  predicate SameClaimOption(x: Option<Entry>, y: Option<Entry>) {
    match (x, y)
    case (None, None) => true
    case (Some(a), Some(b)) => SameClaim(a, b)
    case _ => false
  }
}
