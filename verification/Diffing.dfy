/** The diff of two models as a patch (model/c4/ops.go) and its round trip: running the operations of
    the diff on the first model gives the second. */
module Diffing {
  import opened Options
  import opened Json
  import opened Patches

  // ---- models ------------------------------------------------------------------------------------

  /** Elements with plain ids that do not repeat. */
  predicate Named(items: seq<Json>) {
    (forall i | 0 <= i < |items| :: HasPlainId(items[i]))
    && forall i, j | 0 <= i < j < |items| :: Id(items[i]) != Id(items[j])
  }

  predicate HasPlainId(j: Json) { j.Obj? && "id" in j.members && j.members["id"].Str? && PlainId(j.members["id"].s) }

  function Id(j: Json): string { if j.Obj? then StringAt(j.members, "id") else "" }

  /** A model as it marshals: arrays of named elements, root attributes and a name; the identities are a
      non-empty array or absent. */
  predicate Shaped(m: Members) {
    NamedCollection(m, "nodes") && NamedCollection(m, "edges") && NamedCollection(m, "groups")
    && "attrs" in m && "name" in m
    && ("identities" in m ==> m["identities"].Arr? && m["identities"].items != [])
  }

  predicate NamedCollection(m: Members, coll: string) {
    coll in m && m[coll].Arr? && Named(m[coll].items)
  }

  /** The elements by id. */
  function ById(items: seq<Json>): map<string, Json> {
    if items == [] then map[] else ById(items[..|items| - 1])[Id(items[|items| - 1]) := items[|items| - 1]]
  }

  /** The position of an id. */
  lemma {:induction false} PositionOf(items: seq<Json>, id: string) returns (i: nat)
    requires id in ById(items)
    ensures i < |items| && Id(items[i]) == id && ById(items)[id] == items[i]
  {
    i := |items| - 1;
    if Id(items[i]) != id {
      i := PositionOf(items[..i], id);
    }
  }

  /** An element is found by its id. */
  lemma {:induction false} ByIdAt(items: seq<Json>, i: nat)
    requires Named(items) && i < |items|
    ensures Id(items[i]) in ById(items) && ById(items)[Id(items[i])] == items[i]
  {
    var last := |items| - 1;
    if i < last {
      ByIdAt(items[..last], i);
      assert Id(items[i]) != Id(items[last]);
    }
  }

  /** An id names its element by position, and by the search of the patch. */
  lemma {:induction false} FoundAt(items: seq<Json>, id: string) returns (at: nat)
    requires Named(items) && id in ById(items)
    ensures PlainId(id) && at < |items| && FirstWithId(items, id) == Some(at)
    ensures Id(items[at]) == id && items[at] == ById(items)[id]
  {
    at := PositionOf(items, id);
    assert HasPlainId(items[at]) && IdOf(items[at]) == Some(id);
    var first := FirstWithId(items, id);
    assert first.Some?;
    assert HasPlainId(items[first.value]);
    assert Id(items[first.value]) == id;
  }

  lemma {:induction false} NamedReadable(m: Members, coll: string)
    requires NamedCollection(m, coll)
    ensures Readable(m, coll) && Elements(m, coll) == m[coll].items
  {
    forall i | 0 <= i < |m[coll].items| ensures IdOf(m[coll].items[i]).Some? {
      assert HasPlainId(m[coll].items[i]);
    }
  }

  // ---- one change --------------------------------------------------------------------------------

  /** The operation builders. */
  datatype Change =
    | RemoveElement(coll: string, id: string)
    | AddElement(coll: string, value: Json)
    | ReplaceElement(coll: string, value: Json)

  function ToOp(c: Change): Op {
    match c
    case RemoveElement(coll, id) => Op(Remove, ElementPath(coll, id), Null)
    case AddElement(coll, value) => Op(Add, ElementPath(coll, "-"), value)
    case ReplaceElement(coll, value) => Op(Replace, ElementPath(coll, Id(value)), value)
  }

  /** The change makes sense on the elements: it names one of them, or adds a new one. */
  predicate Fits(c: Change, items: seq<Json>) {
    match c
    case RemoveElement(_, id) => id in ById(items)
    case AddElement(_, value) => HasPlainId(value) && Id(value) !in ById(items)
    case ReplaceElement(_, value) => HasPlainId(value) && Id(value) in ById(items)
  }

  /** What the change does to the elements by id. */
  function Effect(c: Change, byId: map<string, Json>): map<string, Json> {
    match c
    case RemoveElement(_, id) => byId - {id}
    case AddElement(_, value) => byId[Id(value) := value]
    case ReplaceElement(_, value) => byId[Id(value) := value]
  }

  function Without(items: seq<Json>, at: nat): (r: seq<Json>)
    requires at < |items|
    ensures |r| == |items| - 1
    ensures forall i | 0 <= i < |r| :: r[i] == items[if i < at then i else i + 1]
  {
    items[..at] + items[at + 1..]
  }

  lemma {:induction false} RemoveNamed(items: seq<Json>, at: nat)
    requires Named(items) && at < |items|
    ensures Named(Without(items, at))
  {
    var after := Without(items, at);
    forall i | 0 <= i < |after| ensures HasPlainId(after[i]) {
      assert HasPlainId(items[if i < at then i else i + 1]);
    }
    forall i, j | 0 <= i < j < |after| ensures Id(after[i]) != Id(after[j]) {
      assert Id(items[if i < at then i else i + 1]) != Id(items[if j < at then j else j + 1]);
    }
  }

  lemma {:induction false} StillThere(items: seq<Json>, at: nat, id: string)
    requires Named(items) && at < |items| && id in ById(items) && id != Id(items[at])
    ensures id in ById(Without(items, at)) && ById(Without(items, at))[id] == ById(items)[id]
  {
    var after := Without(items, at);
    RemoveNamed(items, at);
    var i := PositionOf(items, id);
    ByIdAt(after, if i < at then i else i - 1);
  }

  lemma {:induction false} WasThere(items: seq<Json>, at: nat, id: string)
    requires Named(items) && at < |items| && id in ById(Without(items, at))
    ensures id in ById(items) && id != Id(items[at])
  {
    var i := PositionOf(Without(items, at), id);
    var k := if i < at then i else i + 1;
    ByIdAt(items, k);
    assert k < at ==> Id(items[k]) != Id(items[at]);
    assert at < k ==> Id(items[at]) != Id(items[k]);
  }

  lemma {:induction false} RemoveOne(items: seq<Json>, at: nat)
    requires Named(items) && at < |items|
    ensures Named(Without(items, at)) && ById(Without(items, at)) == ById(items) - {Id(items[at])}
  {
    RemoveNamed(items, at);
    forall id | id in ById(items) && id != Id(items[at])
      ensures id in ById(Without(items, at)) && ById(Without(items, at))[id] == ById(items)[id]
    {
      StillThere(items, at, id);
    }
    forall id | id in ById(Without(items, at)) ensures id in ById(items) && id != Id(items[at]) {
      WasThere(items, at, id);
    }
  }

  lemma {:induction false} AddOne(items: seq<Json>, value: Json)
    requires Named(items) && HasPlainId(value) && Id(value) !in ById(items)
    ensures Named(items + [value]) && ById(items + [value]) == ById(items)[Id(value) := value]
  {
    var after := items + [value];
    assert after[..|items|] == items;
    forall i | 0 <= i < |items| ensures Id(items[i]) != Id(value) {
      ByIdAt(items, i);
    }
    forall i | 0 <= i < |after| ensures HasPlainId(after[i]) {
      assert i < |items| ==> HasPlainId(items[i]);
    }
    forall i, j | 0 <= i < j < |after| ensures Id(after[i]) != Id(after[j]) {
      assert j < |items| ==> Id(items[i]) != Id(items[j]);
    }
  }

  lemma {:induction false} ReplaceNamed(items: seq<Json>, at: nat, value: Json)
    requires Named(items) && at < |items| && HasPlainId(value) && Id(value) == Id(items[at])
    ensures Named(items[at := value])
  {
    var after := items[at := value];
    forall i, j | 0 <= i < j < |after| ensures Id(after[i]) != Id(after[j]) {
      assert Id(items[i]) != Id(items[j]);
    }
  }

  lemma {:induction false} ReplaceOne(items: seq<Json>, at: nat, value: Json)
    requires Named(items) && at < |items| && HasPlainId(value) && Id(value) == Id(items[at])
    ensures Named(items[at := value]) && ById(items[at := value]) == ById(items)[Id(value) := value]
  {
    var after := items[at := value];
    ReplaceNamed(items, at, value);
    forall id | id in ById(items) ensures id in ById(after) && ById(after)[id] == ById(items)[Id(value) := value][id] {
      var i := PositionOf(items, id);
      ByIdAt(after, i);
      ByIdAt(items, at);
      assert i != at ==> after[i] == items[i] && Id(items[i]) != Id(items[at]);
    }
    forall id | id in ById(after) ensures id in ById(items) {
      var i := PositionOf(after, id);
      ByIdAt(items, i);
    }
    ByIdAt(after, at);
  }

  /** A change that fits, run as an operation: its collection alone changes, as the effect says. */
  lemma {:induction false} ChangeApplies(m: Members, c: Change) returns (after: Members)
    requires Collection(c.coll) && NamedCollection(m, c.coll) && Fits(c, m[c.coll].items)
    ensures ApplyOp(m, ToOp(c), false) == Ok(after)
    ensures NamedCollection(after, c.coll) && ById(after[c.coll].items) == Effect(c, ById(m[c.coll].items))
    ensures after - {c.coll} == m - {c.coll}
  {
    match c
    case RemoveElement(_, _) => after := RemovalApplies(m, c);
    case AddElement(_, _) => after := AdditionApplies(m, c);
    case ReplaceElement(_, _) => after := ReplacementApplies(m, c);
  }

  /** What ChangeApplies says of one change. */
  ghost predicate TakesEffect(m: Members, c: Change, after: Members)
    requires Collection(c.coll) && NamedCollection(m, c.coll)
  {
    ApplyOp(m, ToOp(c), false) == Ok(after) && NamedCollection(after, c.coll)
    && ById(after[c.coll].items) == Effect(c, ById(m[c.coll].items)) && after - {c.coll} == m - {c.coll}
  }

  lemma {:induction false} ItemsReplaced(m: Members, c: Change, items: seq<Json>) returns (after: Members)
    requires Collection(c.coll) && NamedCollection(m, c.coll)
    requires ApplyOp(m, ToOp(c), false) == Ok(m[c.coll := Arr(items)])
    requires Named(items) && ById(items) == Effect(c, ById(m[c.coll].items))
    ensures TakesEffect(m, c, after)
  {
    after := m[c.coll := Arr(items)];
  }

  lemma {:induction false} RemovalApplies(m: Members, c: Change) returns (after: Members)
    requires c.RemoveElement? && Collection(c.coll) && NamedCollection(m, c.coll) && Fits(c, m[c.coll].items)
    ensures TakesEffect(m, c, after)
  {
    var items := m[c.coll].items;
    var at := FoundAt(items, c.id);
    RemovalRuns(m, c, at);
    RemoveOne(items, at);
    after := ItemsReplaced(m, c, Without(items, at));
  }

  lemma {:induction false} RemovalRuns(m: Members, c: Change, at: nat)
    requires c.RemoveElement? && Collection(c.coll) && NamedCollection(m, c.coll) && PlainId(c.id)
    requires at < |m[c.coll].items| && FirstWithId(m[c.coll].items, c.id) == Some(at)
    ensures ApplyOp(m, ToOp(c), false) == Ok(m[c.coll := Arr(Without(m[c.coll].items, at))])
  {
    NamedReadable(m, c.coll);
    ApplyElement(m, c.coll, c.id, at, Remove, Null);
  }

  lemma {:induction false} AdditionApplies(m: Members, c: Change) returns (after: Members)
    requires c.AddElement? && Collection(c.coll) && NamedCollection(m, c.coll) && Fits(c, m[c.coll].items)
    ensures TakesEffect(m, c, after)
  {
    var items := m[c.coll].items;
    NamedReadable(m, c.coll);
    ApplyAdd(m, c.coll, c.value);
    AddOne(items, c.value);
    after := ItemsReplaced(m, c, items + [c.value]);
  }

  lemma {:induction false} ReplacementApplies(m: Members, c: Change) returns (after: Members)
    requires c.ReplaceElement? && Collection(c.coll) && NamedCollection(m, c.coll) && Fits(c, m[c.coll].items)
    ensures TakesEffect(m, c, after)
  {
    var items := m[c.coll].items;
    NamedReadable(m, c.coll);
    var at := FoundAt(items, Id(c.value));
    ApplyElement(m, c.coll, Id(c.value), at, Replace, c.value);
    ReplaceOne(items, at, c.value);
    after := ItemsReplaced(m, c, items[at := c.value]);
  }

  // ---- the diff ----------------------------------------------------------------------------------

  function Ops(cs: seq<Change>): seq<Op> {
    if cs == [] then [] else Ops(cs[..|cs| - 1]) + [ToOp(cs[|cs| - 1])]
  }

  /** The elements the target does not have go. */
  function Removals(coll: string, items: seq<Json>, keep: map<string, Json>): seq<Change> {
    if items == [] then []
    else
      var last := items[|items| - 1];
      Removals(coll, items[..|items| - 1], keep) + if Id(last) !in keep then [RemoveElement(coll, Id(last))] else []
  }

  /** The elements only the target has come. */
  function Additions(coll: string, items: seq<Json>, had: map<string, Json>): seq<Change> {
    if items == [] then []
    else
      var last := items[|items| - 1];
      Additions(coll, items[..|items| - 1], had) + if Id(last) !in had then [AddElement(coll, last)] else []
  }

  predicate Differs(item: Json, had: map<string, Json>) { Id(item) in had && had[Id(item)] != item }

  /** The elements that changed are replaced whole. */
  function Replacements(coll: string, items: seq<Json>, had: map<string, Json>): seq<Change> {
    if items == [] then []
    else
      var last := items[|items| - 1];
      Replacements(coll, items[..|items| - 1], had)
      + if Differs(last, had) then [ReplaceElement(coll, last)] else []
  }

  /** The identities are one member: it is set or removed whole. */
  function IdentityOps(from: Members, to: Members): seq<Op> {
    if "identities" !in from && "identities" !in to then []
    else if "identities" in from && "identities" in to && from["identities"] == to["identities"] then []
    else if "identities" !in to then [Op(Remove, "/identities", Null)]
    else [Op(Add, "/identities", to["identities"])]
  }

  function MemberOps(from: Members, to: Members, name: string): seq<Op>
    requires name in from && name in to
  {
    if from[name] == to[name] then [] else [Op(Replace, "/" + name, to[name])]
  }

  function Has(m: Members, coll: string): map<string, Json>
    requires coll in m && m[coll].Arr?
  {
    ById(m[coll].items)
  }

  datatype Part = Gone | New | Changed

  function Changes(from: Members, to: Members, coll: string, part: Part): seq<Change>
    requires NamedCollection(from, coll) && NamedCollection(to, coll)
  {
    match part
    case Gone => Removals(coll, from[coll].items, Has(to, coll))
    case New => Additions(coll, to[coll].items, Has(from, coll))
    case Changed => Replacements(coll, to[coll].items, Has(from, coll))
  }

  /** The operations of one part of the diff for one collection. */
  type Parts = (string, Part) -> seq<Op>

  /** One part, collection by collection. */
  function Three(parts: Parts, a: string, b: string, c: string, part: Part): seq<Op> {
    parts(a, part) + parts(b, part) + parts(c, part)
  }

  /** What is gone, edges first, then the identities, what is new and what changed, groups first, then the
      root members. */
  function Assembled(parts: Parts, identities: seq<Op>, members: seq<Op>): seq<Op> {
    Three(parts, "edges", "nodes", "groups", Gone)
    + (identities
       + (Three(parts, "groups", "nodes", "edges", New)
          + (Three(parts, "groups", "nodes", "edges", Changed) + members)))
  }

  function PartsOf(from: Members, to: Members): Parts
    requires Shaped(from) && Shaped(to)
  {
    (coll, part) => if Collection(coll) then Ops(Changes(from, to, coll, part)) else []
  }

  /** Diff. */
  function DiffOps(from: Members, to: Members): seq<Op>
    requires Shaped(from) && Shaped(to)
  {
    Assembled(PartsOf(from, to), IdentityOps(from, to), MemberOps(from, to, "attrs") + MemberOps(from, to, "name"))
  }

  // ---- what each part of the diff does -----------------------------------------------------------

  /** The operations run as Apply runs them; what one does is opened where it is used. */
  ghost predicate Faithful(apply: Applier) {
    forall m, op :: AppliesAs(apply, m, op)
  }

  ghost predicate AppliesAs(apply: Applier, m: Members, op: Op) { apply(m, op) == ApplyOp(m, op, false) }

  /** Where a part of the diff leaves a collection: the other members are untouched. */
  ghost predicate Reached(apply: Applier, m: Members, coll: string, cs: seq<Change>, after: Members, byId: map<string, Json>) {
    RunOps(apply, m, Ops(cs)) == Ok(after) && NamedCollection(after, coll) && after - {coll} == m - {coll} && Has(after, coll) == byId
  }

  /** One more change after those that ran. */
  lemma {:induction false} RunOneMore(apply: Applier, m: Members, cs: seq<Change>, mid: Members, byId: map<string, Json>, c: Change) returns (after: Members)
    requires Faithful(apply) && Collection(c.coll) && Reached(apply, m, c.coll, cs, mid, byId) && Fits(c, mid[c.coll].items)
    ensures Reached(apply, m, c.coll, cs + [c], after, Effect(c, byId))
  {
    after := ChangeApplies(mid, c);
    assert AppliesAs(apply, mid, ToOp(c));
    OpsMore(cs, c);
    RunMore(apply, m, Ops(cs), ToOp(c));
  }

  lemma {:induction false} OpsMore(cs: seq<Change>, c: Change)
    ensures Ops(cs + [c]) == Ops(cs) + [ToOp(c)]
  {
    assert (cs + [c])[..|cs|] == cs;
  }

  lemma {:induction false} RunMore(apply: Applier, m: Members, ops: seq<Op>, op: Op)
    requires RunOps(apply, m, ops).Ok?
    ensures RunOps(apply, m, ops + [op]) == apply(RunOps(apply, m, ops).value, op)
  {
    assert (ops + [op])[..|ops|] == ops;
  }

  function Kept(had: map<string, Json>, items: seq<Json>, keep: map<string, Json>): map<string, Json> {
    map id | id in had && (id in ById(items) ==> id in keep) :: had[id]
  }

  lemma {:induction false} KeptStep(had: map<string, Json>, items: seq<Json>, keep: map<string, Json>)
    requires items != []
    ensures var rest, id := items[..|items| - 1], Id(items[|items| - 1]);
            Kept(had, items, keep) == if id in keep then Kept(had, rest, keep) else Kept(had, rest, keep) - {id}
  {}

  lemma {:induction false} RunRemovals(apply: Applier, m: Members, coll: string, items: seq<Json>, keep: map<string, Json>) returns (after: Members)
    requires Faithful(apply)
    requires Collection(coll) && NamedCollection(m, coll) && Named(items)
    requires forall i | 0 <= i < |items| :: Id(items[i]) in Has(m, coll)
    ensures Reached(apply, m, coll, Removals(coll, items, keep), after, Kept(Has(m, coll), items, keep))
  {
    after := m;
    if items == [] {
      assert Kept(Has(m, coll), items, keep) == Has(m, coll);
    } else {
      var rest, last := items[..|items| - 1], items[|items| - 1];
      after := RunRemovals(apply, m, coll, rest, keep);
      KeptStep(Has(m, coll), items, keep);
      var cs := Removals(coll, rest, keep);
      if Id(last) !in keep {
        NotBefore(items);
        after := RunOneMore(apply, m, cs, after, Kept(Has(m, coll), rest, keep), RemoveElement(coll, Id(last)));
      } else {
        assert cs + [] == cs;
      }
    }
  }

  /** The last id does not occur before. */
  lemma {:induction false} NotBefore(items: seq<Json>)
    requires Named(items) && items != []
    ensures Named(items[..|items| - 1]) && HasPlainId(items[|items| - 1]) && Id(items[|items| - 1]) !in ById(items[..|items| - 1])
  {
    var rest, last := items[..|items| - 1], items[|items| - 1];
    assert Id(last) in ById(rest) ==> exists i :: 0 <= i < |rest| && Id(rest[i]) == Id(last) by {
      if Id(last) in ById(rest) {
        var i := PositionOf(rest, Id(last));
      }
    }
    assert forall i | 0 <= i < |rest| :: rest[i] == items[i];
  }

  function Added(base: map<string, Json>, items: seq<Json>, had: map<string, Json>): map<string, Json> {
    base + map id | id in ById(items) && id !in had :: ById(items)[id]
  }

  lemma {:induction false} AddedStep(base: map<string, Json>, items: seq<Json>, had: map<string, Json>)
    requires items != []
    ensures var rest, last := items[..|items| - 1], items[|items| - 1];
            Added(base, items, had) == if Id(last) in had then Added(base, rest, had) else Added(base, rest, had)[Id(last) := last]
  {}

  lemma {:induction false} RunAdditions(apply: Applier, m: Members, coll: string, items: seq<Json>, had: map<string, Json>) returns (after: Members)
    requires Faithful(apply)
    requires Collection(coll) && NamedCollection(m, coll) && Named(items) && Has(m, coll).Keys <= had.Keys
    ensures Reached(apply, m, coll, Additions(coll, items, had), after, Added(Has(m, coll), items, had))
  {
    after := m;
    if items == [] {
      assert Added(Has(m, coll), items, had) == Has(m, coll);
    } else {
      var rest, last := items[..|items| - 1], items[|items| - 1];
      NotBefore(items);
      after := RunAdditions(apply, m, coll, rest, had);
      AddedStep(Has(m, coll), items, had);
      var cs := Additions(coll, rest, had);
      if Id(last) !in had {
        after := RunOneMore(apply, m, cs, after, Added(Has(m, coll), rest, had), AddElement(coll, last));
      } else {
        assert cs + [] == cs;
      }
    }
  }

  function Replaced(base: map<string, Json>, items: seq<Json>, had: map<string, Json>): map<string, Json> {
    map id | id in base :: if id in ById(items) && id in had && had[id] != ById(items)[id] then ById(items)[id] else base[id]
  }

  lemma {:induction false} ReplacedStep(base: map<string, Json>, items: seq<Json>, had: map<string, Json>)
    requires items != [] && Id(items[|items| - 1]) in base && Id(items[|items| - 1]) !in ById(items[..|items| - 1])
    ensures var rest, last := items[..|items| - 1], items[|items| - 1];
            Replaced(base, items, had) == if Id(last) in had && had[Id(last)] != last
                                          then Replaced(base, rest, had)[Id(last) := last] else Replaced(base, rest, had)
  {}

  lemma {:induction false} RunReplacements(apply: Applier, m: Members, coll: string, items: seq<Json>, had: map<string, Json>) returns (after: Members)
    requires Faithful(apply)
    requires Collection(coll) && NamedCollection(m, coll) && Named(items)
    requires forall i | 0 <= i < |items| :: Id(items[i]) in Has(m, coll)
    ensures Reached(apply, m, coll, Replacements(coll, items, had), after, Replaced(Has(m, coll), items, had))
  {
    after := m;
    if items == [] {
      assert Replaced(Has(m, coll), items, had) == Has(m, coll);
    } else {
      var rest, last := items[..|items| - 1], items[|items| - 1];
      NotBefore(items);
      assert Id(items[|items| - 1]) in Has(m, coll);
      after := RunReplacements(apply, m, coll, rest, had);
      ReplacedStep(Has(m, coll), items, had);
      var cs := Replacements(coll, rest, had);
      if Id(last) in had && had[Id(last)] != last {
        after := RunOneMore(apply, m, cs, after, Replaced(Has(m, coll), rest, had), ReplaceElement(coll, last));
      } else {
        assert cs + [] == cs;
      }
    }
  }

  /** The three parts together turn the elements of one model into those of the other. */
  lemma {:induction false} PartsMeet(f: seq<Json>, t: seq<Json>)
    requires Named(f) && Named(t)
    ensures Replaced(Added(Kept(ById(f), f, ById(t)), t, ById(f)), t, ById(f)) == ById(t)
    ensures Kept(ById(f), f, ById(t)).Keys <= ById(f).Keys
    ensures forall i | 0 <= i < |t| :: Id(t[i]) in Added(Kept(ById(f), f, ById(t)), t, ById(f))
  {
    forall i | 0 <= i < |t| ensures Id(t[i]) in ById(t) {
      ByIdAt(t, i);
    }
  }

  // ---- the parts in order ------------------------------------------------------------------------

  /** The elements of a collection after its first parts have run. */
  function Stage(from: Members, to: Members, coll: string, n: nat): map<string, Json>
    requires NamedCollection(from, coll) && NamedCollection(to, coll)
  {
    var f, t := Has(from, coll), Has(to, coll);
    var kept := Kept(f, from[coll].items, t);
    var added := Added(kept, to[coll].items, f);
    if n == 0 then f else if n == 1 then kept else if n == 2 then added else Replaced(added, to[coll].items, f)
  }

  function PartAt(n: nat): Part { if n == 0 then Gone else if n == 1 then New else Changed }

  predicate AtStage(m: Members, from: Members, to: Members, coll: string, n: nat)
    requires NamedCollection(from, coll) && NamedCollection(to, coll)
  {
    NamedCollection(m, coll) && Has(m, coll) == Stage(from, to, coll, n)
  }

  lemma {:induction false} RunPart(apply: Applier, m: Members, from: Members, to: Members, coll: string, n: nat) returns (after: Members)
    requires Faithful(apply) && Collection(coll) && NamedCollection(from, coll) && NamedCollection(to, coll) && n < 3
    requires AtStage(m, from, to, coll, n)
    ensures Runs(apply, m, Ops(Changes(from, to, coll, PartAt(n))), after)
    ensures AtStage(after, from, to, coll, n + 1) && after - {coll} == m - {coll}
  {
    if n == 0 {
      after := RunGone(apply, m, from, to, coll);
    } else if n == 1 {
      after := RunNew(apply, m, from, to, coll);
    } else {
      after := RunChanged(apply, m, from, to, coll);
    }
  }

  lemma {:induction false} RunGone(apply: Applier, m: Members, from: Members, to: Members, coll: string) returns (after: Members)
    requires Faithful(apply) && Collection(coll) && NamedCollection(from, coll) && NamedCollection(to, coll)
    requires AtStage(m, from, to, coll, 0)
    ensures Runs(apply, m, Ops(Changes(from, to, coll, Gone)), after)
    ensures AtStage(after, from, to, coll, 1) && after - {coll} == m - {coll}
  {
    var f := from[coll].items;
    forall i | 0 <= i < |f| ensures Id(f[i]) in Has(m, coll) {
      ByIdAt(f, i);
    }
    after := RunRemovals(apply, m, coll, f, Has(to, coll));
  }

  lemma {:induction false} RunNew(apply: Applier, m: Members, from: Members, to: Members, coll: string) returns (after: Members)
    requires Faithful(apply) && Collection(coll) && NamedCollection(from, coll) && NamedCollection(to, coll)
    requires AtStage(m, from, to, coll, 1)
    ensures Runs(apply, m, Ops(Changes(from, to, coll, New)), after)
    ensures AtStage(after, from, to, coll, 2) && after - {coll} == m - {coll}
  {
    PartsMeet(from[coll].items, to[coll].items);
    after := RunAdditions(apply, m, coll, to[coll].items, Has(from, coll));
  }

  lemma {:induction false} RunChanged(apply: Applier, m: Members, from: Members, to: Members, coll: string) returns (after: Members)
    requires Faithful(apply) && Collection(coll) && NamedCollection(from, coll) && NamedCollection(to, coll)
    requires AtStage(m, from, to, coll, 2)
    ensures Runs(apply, m, Ops(Changes(from, to, coll, Changed)), after)
    ensures AtStage(after, from, to, coll, 3) && after - {coll} == m - {coll}
  {
    PartsMeet(from[coll].items, to[coll].items);
    after := RunReplacements(apply, m, coll, to[coll].items, Has(from, coll));
  }

  // ---- the parts in order, whatever they are -----------------------------------------------------

  /** The parts of a diff, and what holds of a collection after the first n of its parts. */
  datatype Plan = Plan(parts: Parts, at: (Members, string, nat) -> bool)

  /** A part run where it may run leads to the next stage and touches its collection alone. */
  ghost predicate Advances(apply: Applier, plan: Plan) {
    forall m, coll, n | Collection(coll) && n < 3 && plan.at(m, coll, n) :: Advance(apply, plan, m, coll, n)
  }

  ghost predicate Advance(apply: Applier, plan: Plan, m: Members, coll: string, n: nat) {
    exists after :: Arrives(apply, plan, m, coll, n, after)
  }

  ghost predicate Arrives(apply: Applier, plan: Plan, m: Members, coll: string, n: nat, after: Members) {
    Runs(apply, m, plan.parts(coll, PartAt(n)), after) && plan.at(after, coll, n + 1) && after - {coll} == m - {coll}
  }

  /** A stage is about its collection alone. */
  ghost predicate Local(plan: Plan) {
    forall m, after, coll, n: nat :: StaysAt(plan, m, after, coll, n)
  }

  ghost predicate StaysAt(plan: Plan, m: Members, after: Members, coll: string, n: nat) {
    Same(after, m, coll) && plan.at(m, coll, n) ==> plan.at(after, coll, n)
  }

  /** What a change outside a member leaves as it was. */
  lemma {:induction false} Untouched(m: Members, after: Members, names: set<string>, name: string)
    requires after - names == m - names && name !in names
    ensures Same(after, m, name)
  {
    assert name in after - names <==> name in m - names;
    assert name in m ==> (after - names)[name] == (m - names)[name];
  }

  predicate Same(m: Members, n: Members, name: string) {
    (name in m <==> name in n) && (name in m && name in n ==> m[name] == n[name])
  }

  ghost predicate AllAt(m: Members, plan: Plan, n: nat) {
    plan.at(m, "nodes", n) && plan.at(m, "edges", n) && plan.at(m, "groups", n)
  }

  const THREE: set<string> := {"nodes", "edges", "groups"}

  ghost predicate Runs(apply: Applier, m: Members, ops: seq<Op>, after: Members) { RunOps(apply, m, ops) == Ok(after) }

  lemma {:induction false} TwoRuns(apply: Applier, m: Members, a: seq<Op>, mid: Members, b: seq<Op>, after: Members)
    requires Runs(apply, m, a, mid) && Runs(apply, mid, b, after)
    ensures Runs(apply, m, a + b, after)
  {
    RunAppend(apply, m, a, b);
  }

  lemma {:induction false} OtherStage(m: Members, after: Members, names: set<string>, plan: Plan, coll: string, n: nat)
    requires Local(plan) && after - names == m - names && coll !in names && plan.at(m, coll, n)
    ensures plan.at(after, coll, n)
  {
    Untouched(m, after, names, coll);
    assert StaysAt(plan, m, after, coll, n);
  }

  lemma {:induction false} RunThree(apply: Applier, plan: Plan, m: Members, a: string, b: string, c: string, n: nat)
    returns (after: Members)
    requires Advances(apply, plan) && Local(plan) && n < 3
    requires {a, b, c} == THREE && a != b && b != c && a != c && AllAt(m, plan, n)
    ensures Runs(apply, m, Three(plan.parts, a, b, c, PartAt(n)), after)
    ensures AllAt(after, plan, n + 1) && after - THREE == m - THREE
  {
    assert a in THREE && b in THREE && c in THREE;
    assert Advance(apply, plan, m, a, n);
    var m1 :| Arrives(apply, plan, m, a, n, m1);
    OtherStage(m, m1, {a}, plan, b, n);
    OtherStage(m, m1, {a}, plan, c, n);
    assert Advance(apply, plan, m1, b, n);
    var m2 :| Arrives(apply, plan, m1, b, n, m2);
    OtherStage(m1, m2, {b}, plan, a, n + 1);
    OtherStage(m1, m2, {b}, plan, c, n);
    assert Advance(apply, plan, m2, c, n);
    after :| Arrives(apply, plan, m2, c, n, after);
    OtherStage(m2, after, {c}, plan, a, n + 1);
    OtherStage(m2, after, {c}, plan, b, n + 1);
    TwoRuns(apply, m, plan.parts(a, PartAt(n)), m1, plan.parts(b, PartAt(n)), m2);
    TwoRuns(apply, m, plan.parts(a, PartAt(n)) + plan.parts(b, PartAt(n)), m2, plan.parts(c, PartAt(n)), after);
    ThreeOutside(m, m1, m2, after, a, b, c);
  }

  lemma {:induction false} ThreeOutside(m: Members, m1: Members, m2: Members, after: Members, a: string, b: string, c: string)
    requires {a, b, c} == THREE && m1 - {a} == m - {a} && m2 - {b} == m1 - {b} && after - {c} == m2 - {c}
    ensures after - THREE == m - THREE
  {
    assert a in THREE && b in THREE && c in THREE;
    forall k | k !in THREE ensures Same(after, m, k) {
      Untouched(m, m1, {a}, k);
      Untouched(m1, m2, {b}, k);
      Untouched(m2, after, {c}, k);
    }
  }

  lemma {:induction false} RunsOne(apply: Applier, m: Members, op: Op)
    ensures RunOps(apply, m, [op]) == apply(m, op)
  {
    assert [op][..0] == [];
    assert RunOps(apply, m, []) == Ok(m);
  }

  lemma {:induction false} RunRoot(apply: Applier, m: Members, name: string, kind: Kind, value: Json) returns (after: Members)
    requires Faithful(apply) && RootMember(name) && (kind.Add? || name in m)
    ensures Runs(apply, m, [Op(kind, "/" + name, value)], after)
    ensures after == if kind.Remove? then m - {name} else m[name := value]
  {
    var op := Op(kind, "/" + name, value);
    RunsOne(apply, m, op);
    assert AppliesAs(apply, m, op);
    ApplyRoot(m, name, kind, value);
    after := if kind.Remove? then m - {name} else m[name := value];
  }

  lemma {:induction false} RunIdentities(apply: Applier, m: Members, from: Members, to: Members) returns (after: Members)
    requires Faithful(apply) && Same(m, from, "identities")
    ensures Runs(apply, m, IdentityOps(from, to), after)
    ensures Same(after, to, "identities") && after - {"identities"} == m - {"identities"}
  {
    var name := "identities";
    if IdentityOps(from, to) == [] {
      after := m;
    } else if name !in to {
      after := RunRoot(apply, m, name, Remove, Null);
      assert "/" + name == "/identities";
    } else {
      after := RunRoot(apply, m, name, Add, to[name]);
      assert "/" + name == "/identities";
    }
  }

  lemma {:induction false} RunMember(apply: Applier, m: Members, from: Members, to: Members, name: string) returns (after: Members)
    requires Faithful(apply) && (name == "attrs" || name == "name") && name in from && name in to && Same(m, from, name)
    ensures Runs(apply, m, MemberOps(from, to, name), after)
    ensures Same(after, to, name) && after - {name} == m - {name}
  {
    if from[name] == to[name] {
      after := m;
    } else {
      after := RunRoot(apply, m, name, Replace, to[name]);
    }
  }

  /** The model says what `to` says of everything a diff covers, and the rest is as in `from`. */
  ghost predicate Becomes(after: Members, from: Members, to: Members) {
    (forall coll | Collection(coll) :: SameElements(after, to, coll))
    && Same(after, to, "identities") && Same(after, to, "attrs") && Same(after, to, "name")
    && forall name | name !in THREE && name !in {"identities", "attrs", "name"} :: Same(after, from, name)
  }

  ghost predicate SameElements(after: Members, to: Members, coll: string) {
    NamedCollection(after, coll) && NamedCollection(to, coll) && Has(after, coll) == Has(to, coll)
  }

  lemma {:induction false} OutsideSame(m: Members, after: Members, names: set<string>)
    requires forall k | k !in names :: Same(after, m, k)
    ensures after - names == m - names
  {
    forall k | k in m - names ensures k in after - names && (after - names)[k] == (m - names)[k] {
      assert Same(after, m, k);
    }
    forall k | k in after - names ensures k in m - names {
      assert Same(after, m, k);
    }
  }

  /** The root members, after the elements and the identities. */
  lemma {:induction false} RunMembers(apply: Applier, m: Members, from: Members, to: Members) returns (after: Members)
    requires Faithful(apply) && "attrs" in from && "name" in from && "attrs" in to && "name" in to
    requires Same(m, from, "attrs") && Same(m, from, "name")
    ensures Runs(apply, m, MemberOps(from, to, "attrs") + MemberOps(from, to, "name"), after)
    ensures Same(after, to, "attrs") && Same(after, to, "name") && after - {"attrs", "name"} == m - {"attrs", "name"}
  {
    var mid := RunMember(apply, m, from, to, "attrs");
    Untouched(m, mid, {"attrs"}, "name");
    after := RunMember(apply, mid, from, to, "name");
    Untouched(mid, after, {"name"}, "attrs");
    TwoRuns(apply, m, MemberOps(from, to, "attrs"), mid, MemberOps(from, to, "name"), after);
    forall k | k !in {"attrs", "name"} ensures Same(after, m, k) {
      Untouched(m, mid, {"attrs"}, k);
      Untouched(mid, after, {"name"}, k);
    }
    OutsideSame(m, after, {"attrs", "name"});
  }

  lemma {:induction false} FiveRuns(
    apply: Applier, m0: Members, a: seq<Op>, m1: Members, b: seq<Op>, m2: Members, c: seq<Op>, m3: Members,
    d: seq<Op>, m4: Members, e: seq<Op>, m5: Members)
    requires Runs(apply, m0, a, m1) && Runs(apply, m1, b, m2) && Runs(apply, m2, c, m3) && Runs(apply, m3, d, m4)
    requires Runs(apply, m4, e, m5)
    ensures Runs(apply, m0, a + (b + (c + (d + e))), m5)
  {
    TwoRuns(apply, m3, d, m4, e, m5);
    TwoRuns(apply, m2, c, m3, d + e, m5);
    TwoRuns(apply, m1, b, m2, c + (d + e), m5);
    TwoRuns(apply, m0, a, m1, b + (c + (d + e)), m5);
  }

  /** The root members no part before the last touches. */
  lemma {:induction false} Outside(from: Members, m1: Members, m2: Members, m3: Members, m4: Members)
    requires m1 - THREE == from - THREE && m2 - {"identities"} == m1 - {"identities"}
    requires m3 - THREE == m2 - THREE && m4 - THREE == m3 - THREE
    ensures forall k | k !in THREE && k != "identities" :: Same(m4, from, k)
    ensures Same(m1, from, "identities") && Same(m4, m2, "identities")
  {
    forall k | k !in THREE && k != "identities" ensures Same(m4, from, k) {
      Untouched(from, m1, THREE, k);
      Untouched(m1, m2, {"identities"}, k);
      Untouched(m2, m3, THREE, k);
      Untouched(m3, m4, THREE, k);
    }
    Untouched(from, m1, THREE, "identities");
    Untouched(m2, m3, THREE, "identities");
    Untouched(m3, m4, THREE, "identities");
  }

  /** Past the last stage a collection is that of the target. */
  ghost predicate Ends(plan: Plan, to: Members) {
    forall m, coll | Collection(coll) && plan.at(m, coll, 3) :: SameElements(m, to, coll)
  }

  lemma {:induction false} Became(after: Members, m: Members, plan: Plan, from: Members, to: Members)
    requires Ends(plan, to) && Local(plan) && AllAt(m, plan, 3)
    requires after - {"attrs", "name"} == m - {"attrs", "name"} && Same(m, to, "identities")
    requires Same(after, to, "attrs") && Same(after, to, "name")
    requires forall k | k !in THREE && k != "identities" :: Same(m, from, k)
    ensures Becomes(after, from, to)
  {
    forall coll | Collection(coll) ensures SameElements(after, to, coll) {
      OtherStage(m, after, {"attrs", "name"}, plan, coll, 3);
    }
    forall k | k !in THREE && k !in {"identities", "attrs", "name"} ensures Same(after, from, k) {
      Untouched(m, after, {"attrs", "name"}, k);
    }
    Untouched(m, after, {"attrs", "name"}, "identities");
  }

  /** The parts up to the root members. */
  lemma {:induction false} ElementsRun(apply: Applier, plan: Plan, from: Members, to: Members)
    returns (m1: Members, m2: Members, m3: Members, m4: Members)
    requires Faithful(apply) && Advances(apply, plan) && Local(plan) && AllAt(from, plan, 0)
    ensures Runs(apply, from, Three(plan.parts, "edges", "nodes", "groups", Gone), m1)
    ensures Runs(apply, m1, IdentityOps(from, to), m2)
    ensures Runs(apply, m2, Three(plan.parts, "groups", "nodes", "edges", New), m3)
    ensures Runs(apply, m3, Three(plan.parts, "groups", "nodes", "edges", Changed), m4)
    ensures AllAt(m4, plan, 3) && Same(m4, to, "identities") && forall k | k !in THREE && k != "identities" :: Same(m4, from, k)
  {
    m1 := RunThree(apply, plan, from, "edges", "nodes", "groups", 0);
    Untouched(from, m1, THREE, "identities");
    m2 := RunIdentities(apply, m1, from, to);
    OtherStage(m1, m2, {"identities"}, plan, "nodes", 1);
    OtherStage(m1, m2, {"identities"}, plan, "edges", 1);
    OtherStage(m1, m2, {"identities"}, plan, "groups", 1);
    m3 := RunThree(apply, plan, m2, "groups", "nodes", "edges", 1);
    m4 := RunThree(apply, plan, m3, "groups", "nodes", "edges", 2);
    Outside(from, m1, m2, m3, m4);
  }

  lemma {:induction false} DiffRuns(apply: Applier, plan: Plan, from: Members, to: Members) returns (after: Members)
    requires Faithful(apply) && Advances(apply, plan) && Local(plan) && Ends(plan, to) && AllAt(from, plan, 0)
    requires "attrs" in from && "name" in from && "attrs" in to && "name" in to
    ensures Runs(apply, from,
                 Assembled(plan.parts, IdentityOps(from, to), MemberOps(from, to, "attrs") + MemberOps(from, to, "name")), after)
    ensures Becomes(after, from, to)
  {
    var m1, m2, m3, m4 := ElementsRun(apply, plan, from, to);
    after := RunMembers(apply, m4, from, to);
    FiveRuns(apply, from, Three(plan.parts, "edges", "nodes", "groups", Gone), m1, IdentityOps(from, to), m2,
             Three(plan.parts, "groups", "nodes", "edges", New), m3, Three(plan.parts, "groups", "nodes", "edges", Changed), m4,
             MemberOps(from, to, "attrs") + MemberOps(from, to, "name"), after);
    Became(after, m4, plan, from, to);
  }

  // ---- the round trip ----------------------------------------------------------------------------

  function PlanOf(from: Members, to: Members): Plan
    requires Shaped(from) && Shaped(to)
  {
    Plan(PartsOf(from, to), (m: Members, coll: string, n: nat) => Collection(coll) && AtStage(m, from, to, coll, n))
  }

  lemma {:induction false} PlanAdvances(apply: Applier, plan: Plan, from: Members, to: Members)
    requires Faithful(apply) && Shaped(from) && Shaped(to) && plan == PlanOf(from, to)
    ensures Advances(apply, plan) && Local(plan)
  {
    forall m, coll, n | Collection(coll) && n < 3 && plan.at(m, coll, n) ensures Advance(apply, plan, m, coll, n) {
      var after := RunPart(apply, m, from, to, coll, n);
      assert Arrives(apply, plan, m, coll, n, after);
    }
    forall m, after, coll, n: nat ensures StaysAt(plan, m, after, coll, n) {}
  }

  lemma {:induction false} PlanEnds(plan: Plan, from: Members, to: Members)
    requires Shaped(from) && Shaped(to) && plan == PlanOf(from, to)
    ensures Ends(plan, to) && AllAt(from, plan, 0)
  {
    forall m, coll | Collection(coll) && plan.at(m, coll, 3) ensures SameElements(m, to, coll) {
      PartsMeet(from[coll].items, to[coll].items);
    }
    StartsAt(from, to, "nodes");
    StartsAt(from, to, "edges");
    StartsAt(from, to, "groups");
  }

  lemma {:induction false} StartsAt(from: Members, to: Members, coll: string)
    requires Shaped(from) && Shaped(to) && Collection(coll)
    ensures PlanOf(from, to).at(from, coll, 0)
  {
    assert AtStage(from, from, to, coll, 0);
  }

  /** The round trip: running the operations of Diff(from, to) one by one on `from`, each id resolved
      against the document the earlier ones left, gives `to`. */
  lemma {:induction false} DiffRoundTrip(from: Members, to: Members) returns (after: Members)
    requires Shaped(from) && Shaped(to)
    ensures RunOps(ApplierOf(false), from, DiffOps(from, to)) == Ok(after) && Becomes(after, from, to)
  {
    forall m: Members, op: Op ensures AppliesAs(ApplierOf(false), m, op) {}
    PlanAdvances(ApplierOf(false), PlanOf(from, to), from, to);
    PlanEnds(PlanOf(from, to), from, to);
    after := DiffRuns(ApplierOf(false), PlanOf(from, to), from, to);
  }

  /** The diff is empty exactly when the models already agree on everything it covers. */
  lemma {:induction false} DiffIsEmptyIffSame(from: Members, to: Members)
    requires Shaped(from) && Shaped(to)
    ensures DiffOps(from, to) == [] <==> Becomes(from, from, to)
  {
    if DiffOps(from, to) == [] {
      var after := DiffRoundTrip(from, to);
    }
    if Becomes(from, from, to) {
      NoParts(from, to, "nodes");
      NoParts(from, to, "edges");
      NoParts(from, to, "groups");
    }
  }

  lemma {:induction false} NoParts(from: Members, to: Members, coll: string)
    requires Shaped(from) && Shaped(to) && Collection(coll) && SameElements(from, to, coll)
    ensures forall part :: PartsOf(from, to)(coll, part) == []
  {
    var f, t := from[coll].items, to[coll].items;
    NoneGone(coll, f, Has(to, coll));
    NoneNew(coll, t, Has(from, coll));
    forall part: Part ensures Changes(from, to, coll, part) == [] {}
  }

  lemma {:induction false} NoneGone(coll: string, items: seq<Json>, keep: map<string, Json>)
    requires forall id | id in ById(items) :: id in keep
    ensures Removals(coll, items, keep) == []
  {
    if items != [] {
      NoneGone(coll, items[..|items| - 1], keep);
    }
  }

  lemma {:induction false} NoneNew(coll: string, items: seq<Json>, had: map<string, Json>)
    requires Named(items) && forall id | id in ById(items) :: id in had && had[id] == ById(items)[id]
    ensures Additions(coll, items, had) == [] && Replacements(coll, items, had) == []
  {
    if items != [] {
      var rest := items[..|items| - 1];
      NotBefore(items);
      assert forall id | id in ById(rest) :: id in ById(items) && ById(items)[id] == ById(rest)[id];
      NoneNew(coll, rest, had);
    }
  }

  // ---- Diff as the source runs it ----------------------------------------------------------------

  method IndexById(items: seq<Json>) returns (byId: map<string, Json>)
    ensures byId == ById(items)
  {
    byId := map[];
    for i := 0 to |items|
      invariant byId == ById(items[..i])
    {
      assert items[..i + 1][..i] == items[..i];
      byId := byId[Id(items[i]) := items[i]];
    }
    assert items[..|items|] == items;
  }

  function OpIf(due: bool, c: Change): seq<Op> { if due then [ToOp(c)] else [] }

  lemma {:induction false} OpsMoreIf(cs: seq<Change>, due: bool, c: Change)
    ensures Ops(cs + if due then [c] else []) == Ops(cs) + OpIf(due, c)
  {
    if due {
      OpsMore(cs, c);
    } else {
      assert cs + [] == cs;
    }
  }

  lemma {:induction false} RemovalsStep(coll: string, items: seq<Json>, keep: map<string, Json>, i: nat)
    requires i < |items|
    ensures Ops(Removals(coll, items[..i + 1], keep))
            == Ops(Removals(coll, items[..i], keep)) + OpIf(Id(items[i]) !in keep, RemoveElement(coll, Id(items[i])))
  {
    assert items[..i + 1][..i] == items[..i];
    OpsMoreIf(Removals(coll, items[..i], keep), Id(items[i]) !in keep, RemoveElement(coll, Id(items[i])));
  }

  lemma {:induction false} AdditionsStep(coll: string, items: seq<Json>, had: map<string, Json>, i: nat)
    requires i < |items|
    ensures Ops(Additions(coll, items[..i + 1], had))
            == Ops(Additions(coll, items[..i], had)) + OpIf(Id(items[i]) !in had, AddElement(coll, items[i]))
  {
    assert items[..i + 1][..i] == items[..i];
    OpsMoreIf(Additions(coll, items[..i], had), Id(items[i]) !in had, AddElement(coll, items[i]));
  }

  lemma {:induction false} ReplacementsStep(coll: string, items: seq<Json>, had: map<string, Json>, i: nat)
    requires i < |items|
    ensures Ops(Replacements(coll, items[..i + 1], had))
            == Ops(Replacements(coll, items[..i], had))
               + OpIf(Differs(items[i], had), ReplaceElement(coll, items[i]))
  {
    assert items[..i + 1][..i] == items[..i];
    OpsMoreIf(Replacements(coll, items[..i], had), Differs(items[i], had), ReplaceElement(coll, items[i]));
  }

  method CollectRemovals(coll: string, items: seq<Json>, keep: map<string, Json>) returns (ops: seq<Op>)
    ensures ops == Ops(Removals(coll, items, keep))
  {
    ops := [];
    for i := 0 to |items|
      invariant ops == Ops(Removals(coll, items[..i], keep))
    {
      RemovalsStep(coll, items, keep, i);
      if Id(items[i]) !in keep {
        ops := ops + [Op(Remove, ElementPath(coll, Id(items[i])), Null)];
      }
    }
    assert items[..|items|] == items;
  }

  method CollectAdditions(coll: string, items: seq<Json>, had: map<string, Json>) returns (ops: seq<Op>)
    ensures ops == Ops(Additions(coll, items, had))
  {
    ops := [];
    for i := 0 to |items|
      invariant ops == Ops(Additions(coll, items[..i], had))
    {
      AdditionsStep(coll, items, had, i);
      if Id(items[i]) !in had {
        ops := ops + [Op(Add, ElementPath(coll, "-"), items[i])];
      }
    }
    assert items[..|items|] == items;
  }

  method CollectReplacements(coll: string, items: seq<Json>, had: map<string, Json>) returns (ops: seq<Op>)
    ensures ops == Ops(Replacements(coll, items, had))
  {
    ops := [];
    for i := 0 to |items|
      invariant ops == Ops(Replacements(coll, items[..i], had))
    {
      ReplacementsStep(coll, items, had, i);
      var item := items[i];
      if Differs(item, had) {
        ops := ops + [Op(Replace, ElementPath(coll, Id(item)), item)];
      }
    }
    assert items[..|items|] == items;
  }

  lemma {:induction false} PartIs(from: Members, to: Members, coll: string, part: Part)
    requires Shaped(from) && Shaped(to) && Collection(coll)
    ensures PartsOf(from, to)(coll, part) == Ops(Changes(from, to, coll, part))
  {}

  /** One part of one collection. */
  method CollectPart(from: Members, to: Members, coll: string, part: Part) returns (ops: seq<Op>)
    requires Shaped(from) && Shaped(to) && Collection(coll)
    ensures ops == PartsOf(from, to)(coll, part)
  {
    PartIs(from, to, coll, part);
    match part
    case Gone =>
      var byId := IndexById(to[coll].items);
      ops := CollectRemovals(coll, from[coll].items, byId);
    case New =>
      var byId := IndexById(from[coll].items);
      ops := CollectAdditions(coll, to[coll].items, byId);
    case Changed =>
      var byId := IndexById(from[coll].items);
      ops := CollectReplacements(coll, to[coll].items, byId);
  }

  method CollectThree(from: Members, to: Members, a: string, b: string, c: string, part: Part) returns (ops: seq<Op>)
    requires Shaped(from) && Shaped(to) && Collection(a) && Collection(b) && Collection(c)
    ensures ops == Three(PartsOf(from, to), a, b, c, part)
  {
    ops := CollectPart(from, to, a, part);
    var more := CollectPart(from, to, b, part);
    ops := ops + more;
    more := CollectPart(from, to, c, part);
    ops := ops + more;
  }

  method CollectIdentities(from: Members, to: Members) returns (ops: seq<Op>)
    ensures ops == IdentityOps(from, to)
  {
    ops := [];
    if "identities" in from || "identities" in to {
      if "identities" in from && "identities" in to && from["identities"] == to["identities"] {
        return;
      } else if "identities" !in to {
        ops := [Op(Remove, "/identities", Null)];
      } else {
        ops := [Op(Add, "/identities", to["identities"])];
      }
    }
  }

  method CollectMembers(from: Members, to: Members) returns (ops: seq<Op>)
    requires "attrs" in from && "attrs" in to && "name" in from && "name" in to
    ensures ops == MemberOps(from, to, "attrs") + MemberOps(from, to, "name")
  {
    ops := if from["attrs"] == to["attrs"] then [] else [Op(Replace, "/attrs", to["attrs"])];
    assert "/" + "attrs" == "/attrs" && "/" + "name" == "/name";
    if from["name"] != to["name"] {
      ops := ops + [Op(Replace, "/name", to["name"])];
    }
  }

  /** Diff: running its operations on `from` gives `to`. */
  method Diff(from: Members, to: Members) returns (ops: seq<Op>)
    requires Shaped(from) && Shaped(to)
    ensures ops == DiffOps(from, to)
    ensures exists after :: RunOps(ApplierOf(false), from, ops) == Ok(after) && Becomes(after, from, to)
  {
    var gone := CollectThree(from, to, "edges", "nodes", "groups", Gone);
    var identities := CollectIdentities(from, to);
    var new_ := CollectThree(from, to, "groups", "nodes", "edges", New);
    var changed := CollectThree(from, to, "groups", "nodes", "edges", Changed);
    var members := CollectMembers(from, to);
    ops := gone + (identities + (new_ + (changed + members)));
    ghost var after := DiffRoundTrip(from, to);
  }

  // ---- boundaries --------------------------------------------------------------------------------

  method EachOnce(all: seq<string>) returns (members: seq<string>)
    ensures Firsts(members, all)
  {
    var seen: set<string> := {};
    members := [];
    for i := 0 to |all|
      invariant Seen(seen, members) && Firsts(members, all[..i])
    {
      FirstsGrow(members, all, i);
      if all[i] !in seen {
        SeenMore(seen, members, all[i]);
        seen := seen + {all[i]};
        members := members + [all[i]];
      }
    }
    assert all[..|all|] == all;
  }

  ghost predicate Seen(seen: set<string>, members: seq<string>) {
    forall x :: x in seen <==> x in members
  }

  lemma {:induction false} SeenMore(seen: set<string>, members: seq<string>, x: string)
    requires Seen(seen, members)
    ensures Seen(seen + {x}, members + [x])
  {}

  /** GroupIntoBoundary: the members and the given ids, each once, in order of first appearance. */
  method GroupIntoBoundary(groupId: string, current: seq<string>, ids: seq<string>) returns (op: Op)
    ensures op.kind == Replace && op.path == ElementPath("groups", groupId) + "/node_ids"
    ensures exists members: seq<string> :: op.value == Arr(Texts(members)) && Firsts(members, current + ids)
  {
    var members := EachOnce(current + ids);
    op := Op(Replace, ElementPath("groups", groupId) + "/node_ids", Arr(Texts(members)));
  }

  function Texts(s: seq<string>): (r: seq<Json>)
    ensures |r| == |s| && forall i | 0 <= i < |s| :: r[i] == Str(s[i])
  {
    seq(|s|, i requires 0 <= i < |s| => Str(s[i]))
  }

  /** The members are the listed ids without repetition, in order of first appearance. */
  ghost predicate Firsts(members: seq<string>, all: seq<string>) {
    (forall i, j | 0 <= i < j < |members| :: members[i] != members[j])
    && (forall x :: x in members <==> x in all)
    && forall i, j | 0 <= i < j < |members| :: FirstAt(all, members[i]) < FirstAt(all, members[j])
  }

  function FirstAt(all: seq<string>, x: string): nat {
    if all == [] || all[0] == x then 0 else 1 + FirstAt(all[1..], x)
  }

  lemma {:induction false} FirstAtPrefix(all: seq<string>, n: nat, x: string)
    requires n <= |all|
    ensures x in all[..n] ==> FirstAt(all[..n], x) == FirstAt(all, x) < n
    ensures x !in all[..n] ==> FirstAt(all, x) >= n
  {
    if n > 0 && all[0] != x {
      FirstAtPrefix(all[1..], n - 1, x);
      assert all[..n][1..] == all[1..][..n - 1];
      assert all[..n] == [all[0]] + all[1..][..n - 1];
    }
  }

  lemma {:induction false} FirstsGrow(members: seq<string>, all: seq<string>, i: nat)
    requires i < |all| && Firsts(members, all[..i])
    ensures Firsts(if all[i] in members then members else members + [all[i]], all[..i + 1])
  {
    var next := if all[i] in members then members else members + [all[i]];
    assert all[..i + 1] == all[..i] + [all[i]];
    forall j, k | 0 <= j < k < |next| ensures FirstAt(all[..i + 1], next[j]) < FirstAt(all[..i + 1], next[k]) {
      assert all[..i + 1][..i] == all[..i];
      FirstAtPrefix(all[..i + 1], i, next[j]);
      FirstAtPrefix(all[..i + 1], i, next[k]);
      assert next[j] in members;
      assert k < |members| ==> FirstAt(all[..i], members[j]) < FirstAt(all[..i], members[k]);
    }
  }
}
