/** The chain checks and the anchor checks over an export (verify/chain.go, verify/anchors.go). */
module Anchors {
  import opened Options
  import opened Chain

  datatype Status = Pass | Fail | NotChecked | Info

  /** One line of the report; its wording is not modelled. */
  datatype Check = Check(name: string, status: Status)

  class Report {
    var checks: seq<Check>

    constructor ()
      ensures checks == []
    {
      checks := [];
    }

    method Add(name: string, status: Status)
      modifies this
      ensures checks == old(checks) + [Check(name, status)]
    {
      checks := checks + [Check(name, status)];
    }
  }

  // ---- verifyChain -------------------------------------------------------------------------------

  /** The first of the five reasons an event breaks the links, if there is one. */
  method FindBreak(p: Primitives, archId: string, e: Event, prev: string) returns (broken: bool)
    ensures broken <==> !Links(p, archId, e, prev)
  {
    var ph := PayloadHash(p, e.payload);
    var hash := ChainHash(p, e.prevHash, if ph.Some? then ph.value else "", e.typ, e.actor, e.version, e.ts);
    if archId != "" && e.archId != "" && e.archId != archId {
      return true;
    } else if ph.None? {
      return true;
    } else if ph.value != e.payloadHash {
      return true;
    } else if e.prevHash != prev {
      return true;
    }
    return hash != e.hash;
  }

  predicate AllSeqs(events: seq<Event>, n: nat)
    requires n <= |events|
  {
    forall i | 0 <= i < n :: events[i].seqNo.Some?
  }

  /** Event i is the last of the first n to carry the seq q. */
  predicate LastSeq(events: seq<Event>, n: nat, q: int, i: nat)
    requires n <= |events|
  {
    i < n && events[i].seqNo == Some(q) && forall j | i < j < n :: events[j].seqNo != Some(q)
  }

  predicate LastId(events: seq<Event>, n: nat, id: string, i: nat)
    requires n <= |events|
  {
    i < n && events[i].id == id && forall j | i < j < n :: events[j].id != id
  }

  ghost predicate SeqEntry(events: seq<Event>, n: nat, m: map<int, nat>, q: int)
    requires n <= |events|
  {
    q in m ==> LastSeq(events, n, q, m[q])
  }

  ghost predicate HasSeq(events: seq<Event>, i: nat, m: map<int, nat>)
    requires i < |events|
  {
    events[i].seqNo.Some? ==> events[i].seqNo.value in m
  }

  /** The index names, for each seq among the first n events, the last event that carries it. */
  ghost predicate SeqIndex(events: seq<Event>, n: nat, m: map<int, nat>)
    requires n <= |events|
  {
    (forall q :: SeqEntry(events, n, m, q)) && forall i | 0 <= i < n :: HasSeq(events, i, m)
  }

  ghost predicate IdEntry(events: seq<Event>, n: nat, m: map<string, nat>, id: string)
    requires n <= |events|
  {
    id in m ==> LastId(events, n, id, m[id])
  }

  ghost predicate HasId(events: seq<Event>, i: nat, m: map<string, nat>)
    requires i < |events|
  {
    events[i].id in m
  }

  ghost predicate IdIndex(events: seq<Event>, n: nat, m: map<string, nat>)
    requires n <= |events|
  {
    (forall id :: IdEntry(events, n, m, id)) && forall i | 0 <= i < n :: HasId(events, i, m)
  }

  /** The hashes are those of the first n events, recomputed. */
  predicate AllRecomputed(p: Primitives, events: seq<Event>, n: nat, hashes: seq<string>)
    requires n <= |events|
  {
    |hashes| == n && forall i | 0 <= i < n :: hashes[i] == Recomputed(p, events[i])
  }

  /** Of the first n events exactly the first k recompute before the first break. */
  predicate FirstBreak(p: Primitives, x: Export, n: nat, k: nat) {
    k <= n <= |x.events| && IntactTo(p, x, k) && (k < n ==> !LinkHolds(p, x, k))
  }

  /** The scan's view of the links after n events. */
  predicate LinkedTo(p: Primitives, x: Export, n: nat, k: nat, prev: string, broken: bool) {
    FirstBreak(p, x, n, k) && (broken <==> k < n) && prev == if n == 0 then Genesis() else x.events[n - 1].hash
  }

  lemma {:induction false} LinkedGrows(p: Primitives, x: Export, n: nat, k: nat, prev: string, broken: bool)
    requires n < |x.events| && LinkedTo(p, x, n, k, prev, broken)
    ensures broken ==> LinkedTo(p, x, n + 1, k, x.events[n].hash, true)
    ensures !broken && Links(p, x.archId, x.events[n], prev) ==> LinkedTo(p, x, n + 1, n + 1, x.events[n].hash, false)
    ensures !broken && !Links(p, x.archId, x.events[n], prev) ==> LinkedTo(p, x, n + 1, k, x.events[n].hash, true)
  {
    assert Links(p, x.archId, x.events[n], prev) <==> LinkHolds(p, x, n);
  }

  lemma {:induction false} RecomputedGrows(p: Primitives, events: seq<Event>, n: nat, hashes: seq<string>)
    requires n < |events| && AllRecomputed(p, events, n, hashes)
    ensures AllRecomputed(p, events, n + 1, hashes + [Recomputed(p, events[n])])
  {}

  lemma {:induction false} IndexesGrow(events: seq<Event>, i: nat, bySeq: map<int, nat>, byID: map<string, nat>)
    requires i < |events| && SeqIndex(events, i, bySeq) && IdIndex(events, i, byID)
    ensures SeqIndex(events, i + 1, if events[i].seqNo.Some? then bySeq[events[i].seqNo.value := i] else bySeq)
    ensures IdIndex(events, i + 1, byID[events[i].id := i])
    ensures AllSeqs(events, i + 1) <==> AllSeqs(events, i) && events[i].seqNo.Some?
  {
    SeqIndexGrows(events, i, bySeq);
    IdIndexGrows(events, i, byID);
  }

  lemma {:induction false} SeqIndexGrows(events: seq<Event>, i: nat, m: map<int, nat>)
    requires i < |events| && SeqIndex(events, i, m)
    ensures SeqIndex(events, i + 1, if events[i].seqNo.Some? then m[events[i].seqNo.value := i] else m)
  {
    var next := if events[i].seqNo.Some? then m[events[i].seqNo.value := i] else m;
    var n := i + 1;
    forall q ensures SeqEntry(events, n, next, q) {
      assert SeqEntry(events, i, m, q);
    }
    forall j | 0 <= j <= i ensures HasSeq(events, j, next) {
      assert j < i ==> HasSeq(events, j, m);
    }
  }

  lemma {:induction false} IdIndexGrows(events: seq<Event>, i: nat, m: map<string, nat>)
    requires i < |events| && IdIndex(events, i, m)
    ensures IdIndex(events, i + 1, m[events[i].id := i])
  {
    var next := m[events[i].id := i];
    var n := i + 1;
    forall id ensures IdEntry(events, n, next, id) {
      assert IdEntry(events, i, m, id);
    }
    forall j | 0 <= j <= i ensures HasId(events, j, next) {
      assert j < i ==> HasId(events, j, m);
    }
  }

  /** What the chain checks established. */
  class ChainState {
    const exp: Export
    var recomputed: seq<string>
    var intact: nat
    var seqOK: bool
    var bySeq: map<int, nat>
    var byID: map<string, nat>
    var head: string
    var linksOK: bool

    constructor (x: Export, ghost p: Primitives)
      ensures exp == x && ScannedTo(p, 0, Genesis(), false) && head == "" && linksOK
    {
      exp := x;
      recomputed, intact, seqOK, bySeq, byID, head, linksOK := [], 0, true, map[], map[], "", true;
    }

    /** The state after the first n events. */
    ghost predicate Scanned(p: Primitives, n: nat)
      reads this`recomputed, this`seqOK, this`bySeq, this`byID
    {
      n <= |exp.events| && AllRecomputed(p, exp.events, n, recomputed) && IndexedTo(n)
    }

    ghost predicate IndexedTo(n: nat)
      reads this`seqOK, this`bySeq, this`byID
      requires n <= |exp.events|
    {
      seqOK == AllSeqs(exp.events, n) && SeqIndex(exp.events, n, bySeq) && IdIndex(exp.events, n, byID)
    }

    method IndexEvent(i: nat)
      requires i < |exp.events| && IndexedTo(i)
      modifies this`seqOK, this`bySeq, this`byID
      ensures IndexedTo(i + 1)
    {
      var e := exp.events[i];
      IndexesGrow(exp.events, i, bySeq, byID);
      byID := byID[e.id := i];
      if e.seqNo.None? {
        seqOK := false;
      } else {
        bySeq := bySeq[e.seqNo.value := i];
      }
    }

    /** The loop invariant of the scan: n events are indexed and recomputed, prev is the last stored
        hash and the links are broken once an event does not recompute. */
    ghost predicate ScannedTo(p: Primitives, n: nat, prev: string, broken: bool)
      reads this`recomputed, this`intact, this`seqOK, this`bySeq, this`byID
    {
      Scanned(p, n) && LinkedTo(p, exp, n, intact, prev, broken)
    }

    method ScanEvent(p: Primitives, i: nat, prev: string, broken: bool) returns (breaks: bool)
      requires i < |exp.events| && ScannedTo(p, i, prev, broken)
      modifies this`recomputed, this`intact, this`seqOK, this`bySeq, this`byID
      ensures ScannedTo(p, i + 1, exp.events[i].hash, breaks)
    {
      var e := exp.events[i];
      LinkedGrows(p, exp, i, intact, prev, broken);
      RecomputedGrows(p, exp.events, i, recomputed);
      IndexEvent(i);
      recomputed := recomputed + [Recomputed(p, e)];
      if broken {
        return true;
      }
      breaks := FindBreak(p, exp.archId, e, prev);
      if !breaks {
        intact := i + 1;
      }
    }

    /** The scan of the events: indexes, recomputed hashes, and the first break. */
    method Scan(p: Primitives) returns (broken: bool)
      requires ScannedTo(p, 0, Genesis(), false)
      modifies this`recomputed, this`intact, this`seqOK, this`bySeq, this`byID
      ensures Scanned(p, |exp.events|) && FirstBreak(p, exp, |exp.events|, intact)
      ensures broken <==> intact < |exp.events|
    {
      var prev := Genesis();
      broken := false;
      for i := 0 to |exp.events|
        invariant ScannedTo(p, i, prev, broken)
      {
        broken := ScanEvent(p, i, prev, broken);
        prev := exp.events[i].hash;
      }
    }

    /** The event an anchor names: by seq when the export carries it, else by id. */
    function EventAt(a: Receipt): Option<nat>
      reads this
    {
      if seqOK then (if a.headSeq in bySeq then Some(bySeq[a.headSeq]) else None)
      else if a.headEventId in byID then Some(byID[a.headEventId]) else None
    }

    /** The position of the event with this stored hash among those that recompute. */
    method HasHash(h: string) returns (i: Option<nat>)
      requires intact <= |exp.events|
      ensures i.Some? ==> i.value < intact && exp.events[i.value].hash == h
      ensures i.None? ==> forall j | 0 <= j < intact :: exp.events[j].hash != h
    {
      for k := 0 to intact
        invariant forall j | 0 <= j < k :: exp.events[j].hash != h
      {
        if exp.events[k].hash == h {
          return Some(k);
        }
      }
      return None;
    }
  }

  /** The links of the export hold: it is whole, not empty, and every event recomputes. */
  predicate Verifies(p: Primitives, x: Export) {
    x.events != [] && (x.count.Some? ==> x.count.value == |x.events|) && IntactTo(p, x, |x.events|)
  }

  function ChainLines(partial: bool, broken: bool): seq<Check> {
    (if partial then [Check("chain", Fail)] else [])
    + if broken then [Check("chain", Fail)] else if partial then [] else [Check("chain", Pass)]
  }

  predicate Partial(x: Export) { x.count.Some? && x.count.value != |x.events| }

  /** The count check. */
  method CountLine(r: Report, st: ChainState)
    requires st.linksOK
    modifies r, st`linksOK
    ensures st.linksOK == !Partial(st.exp)
    ensures r.checks == old(r.checks) + if Partial(st.exp) then [Check("chain", Fail)] else []
  {
    if st.exp.count.Some? && st.exp.count.value != |st.exp.events| {
      r.Add("chain", Fail);
      st.linksOK := false;
    }
  }

  /** The chain line, after the scan. */
  method LinksLine(r: Report, st: ChainState, broken: bool)
    modifies r, st`linksOK
    ensures st.linksOK == (old(st.linksOK) && !broken)
    ensures r.checks == old(r.checks)
                        + if broken then [Check("chain", Fail)] else if old(st.linksOK) then [Check("chain", Pass)] else []
  {
    if broken {
      st.linksOK := false;
      r.Add("chain", Fail);
    } else if st.linksOK {
      r.Add("chain", Pass);
    }
  }

  function HeadStatus(x: Export, head: string, linksOK: bool): Status {
    if x.headHash == "" then NotChecked
    else if x.headHash == head && linksOK then Pass
    else Fail
  }

  method HeadLine(r: Report, st: ChainState)
    modifies r
    ensures r.checks == old(r.checks) + [Check("head", HeadStatus(st.exp, st.head, st.linksOK))]
  {
    if st.exp.headHash == "" {
      r.Add("head", NotChecked);
    } else if st.exp.headHash != st.head {
      r.Add("head", Fail);
    } else if st.linksOK {
      r.Add("head", Pass);
    } else {
      r.Add("head", Fail);
    }
  }

  /** What the report says of an export: chain lines, then the head line, then the marks line. */
  function ReportOf(x: Export, verifies: bool): seq<Check>
    requires x.events != []
  {
    ChainLines(Partial(x), !verifies)
    + [Check("head", HeadStatus(x, x.events[|x.events| - 1].hash, verifies && !Partial(x))), Check("anchored_by", MarksStatus(x))]
  }

  /** The state and the chain lines of an export with events. */
  method EstablishChain(r: Report, x: Export, p: Primitives) returns (st: ChainState)
    requires x.events != []
    modifies r
    ensures fresh(st) && st.exp == x && st.Scanned(p, |x.events|) && FirstBreak(p, x, |x.events|, st.intact)
    ensures st.linksOK == (st.intact == |x.events| && !Partial(x)) && st.head == x.events[|x.events| - 1].hash
    ensures r.checks == old(r.checks) + ChainLines(Partial(x), st.intact < |x.events|)
  {
    st := new ChainState(x, p);
    CountLine(r, st);
    var broken := st.Scan(p);
    st.head := x.events[|x.events| - 1].hash;
    LinksLine(r, st, broken);
  }

  /** verifyChain on a decoded export: its lines depend only on whether every event recomputes, the
      count, the named head and the marks; and the state it hands to the anchor checks describes the
      export. */
  method VerifyChain(r: Report, x: Export, p: Primitives) returns (st: ChainState?)
    modifies r
    ensures st == null <==> x.events == []
    ensures st == null ==> r.checks == old(r.checks) + [Check("chain", Fail)]
    ensures st != null ==> fresh(st) && st.exp == x && st.Scanned(p, |x.events|) && FirstBreak(p, x, |x.events|, st.intact)
    ensures st != null ==> st.linksOK == (st.intact == |x.events| && !Partial(x)) && st.head == x.events[|x.events| - 1].hash
    ensures st != null ==> r.checks == old(r.checks) + ReportOf(x, st.intact == |x.events|)
  {
    if |x.events| == 0 {
      r.Add("chain", Fail);
      return null;
    }
    st := EstablishChain(r, x, p);
    HeadLine(r, st);
    var status := CheckAnchoredBy(x);
    r.Add("anchored_by", status);
  }

  /** What a report says: the chain line passes exactly when the export is whole and recomputes, and the
      head line exactly when it also names its last event. */
  lemma {:induction false} ReportIsRight(p: Primitives, x: Export, intact: nat)
    requires x.events != [] && FirstBreak(p, x, |x.events|, intact)
    ensures Verifies(p, x) <==> intact == |x.events| && !Partial(x)
    ensures Check("chain", Pass) in ReportOf(x, intact == |x.events|) <==> Verifies(p, x)
    ensures Check("head", Pass) in ReportOf(x, intact == |x.events|) <==>
            Verifies(p, x) && x.headHash != "" && x.headHash == x.events[|x.events| - 1].hash
  {
    var lines := ReportOf(x, intact == |x.events|);
    if intact == |x.events| && !Partial(x) {
      assert lines[0] == Check("chain", Pass);
      assert lines[1].name == "head";
    } else {
      assert intact < |x.events| ==> !LinkHolds(p, x, intact);
    }
    assert lines[|lines| - 2].name == "head";
  }

  // ---- anchored_by -------------------------------------------------------------------------------

  /** The first receipt, in head order, whose head is at or after the event: "" when there is none. */
  function FirstCovering(sorted: seq<Receipt>, q: int): string {
    if sorted == [] then "" else if sorted[0].headSeq >= q then sorted[0].id else FirstCovering(sorted[1..], q)
  }

  function MarkId(m: Mark): Option<string> {
    match m
    case Absent => None
    case Malformed => None
    case Null => Some("")
    case Named(id) => Some(id)
  }

  predicate Marked(x: Export) {
    exists i :: 0 <= i < |x.events| && x.events[i].anchoredBy != Absent
  }

  /** Every event is marked with the first receipt that covers it. */
  predicate MarksHold(x: Export) {
    forall i | 0 <= i < |x.events| && x.events[i].seqNo.Some? ::
         MarkId(x.events[i].anchoredBy) == Some(FirstCovering(OkAnchors(x.anchors), x.events[i].seqNo.value))
  }

  method FindCovering(sorted: seq<Receipt>, q: int) returns (want: string)
    ensures want == FirstCovering(sorted, q)
  {
    for i := 0 to |sorted|
      invariant FirstCovering(sorted, q) == FirstCovering(sorted[i..], q)
    {
      if sorted[i].headSeq >= q {
        return sorted[i].id;
      }
      assert sorted[i..][1..] == sorted[i + 1..];
    }
    return "";
  }

  /** Without marks or seqs the marks are not checked; else they pass exactly when every mark is the
      receipt the receipts place the event under. */
  function MarksStatus(x: Export): Status {
    if !Marked(x) || !AllSeqs(x.events, |x.events|) then NotChecked
    else if MarksHold(x) then Pass
    else Fail
  }

  method CheckAnchoredBy(x: Export) returns (status: Status)
    ensures status == MarksStatus(x)
  {
    var present := 0;
    for i := 0 to |x.events|
      invariant present >= 0 && (present == 0 <==> forall j | 0 <= j < i :: x.events[j].anchoredBy == Absent)
    {
      if x.events[i].anchoredBy != Absent {
        present := present + 1;
      }
    }
    if present == 0 {
      return NotChecked;
    }
    for i := 0 to |x.events|
      invariant forall j | 0 <= j < i :: x.events[j].seqNo.Some?
    {
      if x.events[i].seqNo.None? {
        return NotChecked;
      }
    }
    var sorted := SortedOk(x.anchors);
    for i := 0 to |x.events|
      invariant forall j | 0 <= j < i ::
                  MarkId(x.events[j].anchoredBy) == Some(FirstCovering(sorted, x.events[j].seqNo.value))
    {
      var want := FindCovering(sorted, x.events[i].seqNo.value);
      if MarkId(x.events[i].anchoredBy) != Some(want) {
        return Fail;
      }
    }
    return Pass;
  }

  /** Receipt i of the list is the first at or after the seq. */
  predicate First(sorted: seq<Receipt>, q: int, i: nat) {
    i < |sorted| && sorted[i].headSeq >= q && forall j | 0 <= j < i :: sorted[j].headSeq < q
  }

  /** The receipt found is the first that covers the event: its id, whenever there is one, and none otherwise. */
  lemma {:induction false} FirstCoveringIsFirst(sorted: seq<Receipt>, q: int)
    ensures forall i: nat | First(sorted, q, i) :: FirstCovering(sorted, q) == sorted[i].id
    ensures (exists i: nat :: First(sorted, q, i)) <==> exists i :: 0 <= i < |sorted| && sorted[i].headSeq >= q
    ensures (forall i | 0 <= i < |sorted| :: sorted[i].headSeq < q) ==> FirstCovering(sorted, q) == ""
  {
    if sorted != [] {
      if sorted[0].headSeq < q {
        FirstCoveringIsFirst(sorted[1..], q);
        forall i: nat ensures First(sorted, q, i) <==> i > 0 && First(sorted[1..], q, i - 1) {
          LaterFirst(sorted, q, i);
        }
        if i: nat :| First(sorted[1..], q, i) {
          var n := i + 1;
          assert First(sorted, q, n);
        }
      } else {
        assert First(sorted, q, 0);
      }
    }
  }

  lemma {:induction false} LaterFirst(sorted: seq<Receipt>, q: int, i: nat)
    requires sorted != [] && sorted[0].headSeq < q
    ensures First(sorted, q, i) <==> i > 0 && First(sorted[1..], q, i - 1)
  {
    forall j | 0 < j < |sorted| ensures sorted[j] == sorted[1..][j - 1] {}
    if i > 0 && First(sorted[1..], q, i - 1) {
      forall j | 0 <= j < i ensures sorted[j].headSeq < q {
        assert j > 0 ==> sorted[j] == sorted[1..][j - 1];
      }
    }
    if First(sorted, q, i) {
      forall j | 0 <= j < i - 1 ensures sorted[1..][j].headSeq < q {
        var n := j + 1;
        assert sorted[n].headSeq < q;
      }
    }
  }

  lemma {:induction false} OkOnlyKeeps(anchors: seq<Receipt>, r: Receipt)
    ensures r in OkOnly(anchors) <==> r in anchors && IsOk(r)
  {
    if anchors != [] {
      OkOnlyKeeps(anchors[..|anchors| - 1], r);
      assert anchors == anchors[..|anchors| - 1] + [anchors[|anchors| - 1]];
    }
  }

  lemma {:induction false} OkAnchorsAre(anchors: seq<Receipt>)
    ensures HeadOrder(OkAnchors(anchors))
    ensures forall r :: r in OkAnchors(anchors) <==> r in anchors && IsOk(r)
  {
    SortIsStable(OkOnly(anchors), 0);
    forall r ensures r in OkOnly(anchors) <==> r in anchors && IsOk(r) {
      OkOnlyKeeps(anchors, r);
    }
  }

  /** a is an ok receipt that covers the seq, and no ok receipt of an earlier head does. */
  predicate Nearest(anchors: seq<Receipt>, a: Receipt, q: int) {
    a in anchors && IsOk(a) && a.headSeq >= q
    && forall b | b in anchors && IsOk(b) && b.headSeq >= q :: a.headSeq <= b.headSeq
  }

  /** The event bears the id of the first ok receipt at or after it in head order, or an empty mark when
      no ok receipt covers it. */
  ghost predicate MarkedFirst(x: Export, e: Event)
    requires e.seqNo.Some?
  {
    if exists a :: a in x.anchors && IsOk(a) && a.headSeq >= e.seqNo.value
    then exists k: nat :: First(OkAnchors(x.anchors), e.seqNo.value, k) && MarkId(e.anchoredBy) == Some(OkAnchors(x.anchors)[k].id)
    else MarkId(e.anchoredBy) == Some("")
  }

  lemma {:induction false} CoveredIffFirst(x: Export, q: int)
    ensures (exists a :: a in x.anchors && IsOk(a) && a.headSeq >= q) <==> exists k: nat :: First(OkAnchors(x.anchors), q, k)
  {
    var sorted := OkAnchors(x.anchors);
    OkAnchorsAre(x.anchors);
    FirstCoveringIsFirst(sorted, q);
    if a :| a in x.anchors && IsOk(a) && a.headSeq >= q {
      var m :| 0 <= m < |sorted| && sorted[m] == a;
    }
    if k: nat :| First(sorted, q, k) {
      assert sorted[k] in sorted;
    }
  }

  lemma {:induction false} MarkIsFirst(x: Export, e: Event)
    requires e.seqNo.Some?
    ensures MarkedFirst(x, e) <==> MarkId(e.anchoredBy) == Some(FirstCovering(OkAnchors(x.anchors), e.seqNo.value))
  {
    var sorted, q := OkAnchors(x.anchors), e.seqNo.value;
    CoveredIffFirst(x, q);
    FirstCoveringIsFirst(sorted, q);
    if k: nat :| First(sorted, q, k) {
      assert FirstCovering(sorted, q) == sorted[k].id;
    } else {
      assert forall i | 0 <= i < |sorted| :: sorted[i].headSeq < q;
    }
  }

  /** The first covering receipt is of the nearest head. */
  lemma {:induction false} FirstIsNearest(x: Export, q: int, k: nat)
    requires First(OkAnchors(x.anchors), q, k)
    ensures Nearest(x.anchors, OkAnchors(x.anchors)[k], q)
  {
    var sorted := OkAnchors(x.anchors);
    OkAnchorsAre(x.anchors);
    assert sorted[k] in sorted;
    forall b | b in x.anchors && IsOk(b) && b.headSeq >= q ensures sorted[k].headSeq <= b.headSeq {
      var m :| 0 <= m < |sorted| && sorted[m] == b;
    }
  }

  /** What passing marks say: every event a receipt covers bears the first one in head order, which is of
      the nearest head at or after it, and an event no ok receipt covers bears an empty mark. */
  lemma {:induction false} MarkIsNearest(x: Export, i: nat)
    requires MarksStatus(x) == Pass && i < |x.events| && x.events[i].seqNo.Some?
    ensures MarkedFirst(x, x.events[i])
    ensures forall k: nat | First(OkAnchors(x.anchors), x.events[i].seqNo.value, k) ::
              Nearest(x.anchors, OkAnchors(x.anchors)[k], x.events[i].seqNo.value)
  {
    MarkIsFirst(x, x.events[i]);
    forall k: nat | First(OkAnchors(x.anchors), x.events[i].seqNo.value, k)
      ensures Nearest(x.anchors, OkAnchors(x.anchors)[k], x.events[i].seqNo.value)
    {
      FirstIsNearest(x, x.events[i].seqNo.value, k);
    }
  }

  /** The marks line passes exactly when the export is marked, carries every seq, and marks every event
      with the first receipt at or after it. */
  lemma {:induction false} MarksPassIff(x: Export)
    ensures MarksStatus(x) == Pass <==>
            Marked(x) && forall i | 0 <= i < |x.events| :: x.events[i].seqNo.Some? && MarkedFirst(x, x.events[i])
  {
    forall i | 0 <= i < |x.events| && x.events[i].seqNo.Some?
      ensures MarkedFirst(x, x.events[i]) <==>
              MarkId(x.events[i].anchoredBy) == Some(FirstCovering(OkAnchors(x.anchors), x.events[i].seqNo.value))
    {
      MarkIsFirst(x, x.events[i]);
    }
  }

  // ---- the in-place insertion sort ---------------------------------------------------------------

  method SortedOk(anchors: seq<Receipt>) returns (sorted: seq<Receipt>)
    ensures sorted == OkAnchors(anchors)
  {
    var kept := [];
    for i := 0 to |anchors|
      invariant kept == OkOnly(anchors[..i])
    {
      assert anchors[..i + 1][..i] == anchors[..i];
      if anchors[i].status == "" || anchors[i].status == "ok" {
        kept := kept + [anchors[i]];
      }
    }
    assert anchors[..|anchors|] == anchors;
    if kept == [] {
      return [];
    }
    var out := new Receipt[|kept|](i requires 0 <= i < |kept| => kept[i]);
    assert out[..] == kept;
    InsertionSort(out);
    sorted := out[..];
  }

  method InsertionSort(out: array<Receipt>)
    modifies out
    ensures out[..] == SortByHead(old(out[..]))
  {
    ghost var s := out[..];
    if out.Length == 0 {
      return;
    }
    SortOfOne(s);
    var i := 1;
    while i < out.Length
      invariant 1 <= i <= out.Length
      invariant out[..i] == SortByHead(s[..i])
      invariant out[i..] == s[i..]
    {
      SortStep(s, i);
      assert out[i] == out[i..][0] == s[i];
      SinkLast(out, i);
      assert out[i + 1..] == s[i + 1..] by {
        assert s[i..][1..] == s[i + 1..];
      }
      i := i + 1;
    }
    assert out[..i] == out[..] && s[..i] == s;
  }

  lemma {:induction false} SortOfOne(s: seq<Receipt>)
    requires s != []
    ensures SortByHead(s[..1]) == s[..1]
  {
    assert s[..1][..0] == [];
    assert SortByHead(s[..1]) == InsertByHead([], s[0]);
  }

  lemma {:induction false} SortStep(s: seq<Receipt>, i: nat)
    requires i < |s|
    ensures SortByHead(s[..i + 1]) == InsertByHead(SortByHead(s[..i]), s[i])
  {
    assert s[..i + 1][..i] == s[..i];
  }

  /** x inside s, at position j. */
  function Placed(s: seq<Receipt>, x: Receipt, j: nat): (r: seq<Receipt>)
    requires j <= |s|
    ensures |r| == |s| + 1 && r[j] == x && (j > 0 ==> r[j - 1] == s[j - 1])
  {
    s[..j] + [x] + s[j..]
  }

  lemma {:induction false} PlacedMoves(s: seq<Receipt>, x: Receipt, j: nat)
    requires 0 < j <= |s|
    ensures Placed(s, x, j)[j := s[j - 1]][j - 1 := x] == Placed(s, x, j - 1)
  {}

  lemma {:induction false} SwapInFront(front: seq<Receipt>, rest: seq<Receipt>, j: nat, a: Receipt, b: Receipt)
    requires 0 < j < |front|
    ensures (front + rest)[j := a][j - 1 := b] == front[j := a][j - 1 := b] + rest
  {}

  method Swap(out: array<Receipt>, j: nat)
    requires 0 < j < out.Length
    modifies out
    ensures out[..] == old(out[..])[j := old(out[j - 1])][j - 1 := old(out[j])]
  {
    out[j], out[j - 1] := out[j - 1], out[j];
  }

  /** The inner loop: the element at i swaps down while it is strictly before its neighbour. */
  method SinkLast(out: array<Receipt>, i: nat)
    requires i < out.Length
    modifies out
    ensures out[..i + 1] == InsertByHead(old(out[..i]), old(out[i]))
    ensures out[i + 1..] == old(out[i + 1..])
  {
    ghost var s, x, rest := out[..i], out[i], out[i + 1..];
    var j := i;
    assert out[..] == Placed(s, x, i) + rest;
    while j > 0 && out[j].headSeq < out[j - 1].headSeq
      invariant 0 <= j <= i
      invariant out[..] == Placed(s, x, j) + rest
      invariant forall k | j <= k < i :: s[k].headSeq > x.headSeq
    {
      ghost var placed := Placed(s, x, j);
      assert out[j] == out[..][j] == placed[j] && out[j - 1] == out[..][j - 1] == placed[j - 1];
      PlacedMoves(s, x, j);
      Swap(out, j);
      SwapInFront(placed, rest, j, s[j - 1], x);
      j := j - 1;
    }
    ghost var placed := Placed(s, x, j);
    assert out[..i + 1] == (placed + rest)[..i + 1] == placed;
    assert out[i + 1..] == (placed + rest)[i + 1..] == rest;
    assert j > 0 ==> out[..][j] == placed[j] && out[..][j - 1] == placed[j - 1];
    InsertedAt(s, x, j);
  }

  lemma {:induction false} InsertedAt(s: seq<Receipt>, x: Receipt, j: nat)
    requires j <= |s| && (j > 0 ==> s[j - 1].headSeq <= x.headSeq)
    requires forall k | j <= k < |s| :: s[k].headSeq > x.headSeq
    ensures InsertByHead(s, x) == Placed(s, x, j)
  {
    if j == |s| {
      assert s[..j] == s;
    } else {
      var rest := s[..|s| - 1];
      InsertedAt(rest, x, j);
      assert rest[..j] == s[..j] && rest[j..] + [s[|s| - 1]] == s[j..];
    }
  }
}
