/** What the secret guard reports for a document (secretguard/secretguard.go), as a function of the
    document; the walk over a shared buffer that computes it is in SecretGuard. */
module Secrets {
  import opened Options
  import opened Text
  import opened Json
  import opened Pointers
  import opened Sorting

  /** A detector is a name, whether it rejects, its confidence and the span it matches. */
  datatype Detector = Detector(name: string, reject: bool, confidence: real, match_: string -> Option<(nat, nat)>)

  datatype Finding = Finding(detector: string, path: string, confidence: real, reject: bool, inKey: bool, underKey: bool)

  const ENTROPY := "high_entropy_token"
  const MIN_SCAN_LENGTH := 12

  predicate Rejects(fs: seq<Finding>) {
    exists i :: 0 <= i < |fs| && fs[i].reject
  }

  /** How a hit's span is reported: the pointer of the text, or the span itself when it has none. */
  type PathOf = ((nat, nat)) -> string

  function SpanText(span: (nat, nat)): string {
    "bytes[" + Itoa(span.0) + ":" + Itoa(span.1) + "]"
  }

  function AtPointer(pointer: string): PathOf { _ => pointer }

  function AtSpan(): PathOf { span => SpanText(span) }

  // ---- one string --------------------------------------------------------------------------------

  function NewFinding(d: Detector, path: PathOf, s: string): Finding
    requires d.match_(s).Some?
  {
    Finding(d.name, path(d.match_(s).value), d.confidence, d.reject, false, false)
  }

  function NewFindings(d: Detector, path: PathOf, s: string): seq<Finding> {
    if d.match_(s).None? then [] else [NewFinding(d, path, s)]
  }

  /** One finding for each detector that matches, in detector order. */
  function Hits(ds: seq<Detector>, path: PathOf, s: string): seq<Finding> {
    if ds == [] then []
    else
      Hits(ds[..|ds| - 1], path, s) + NewFindings(ds[|ds| - 1], path, s)
  }

  /** A rejecting finding that is not an entropy hit. */
  predicate Refuses(f: Finding) { f.reject && f.detector != ENTROPY }

  /** The first finding that refuses. */
  function FirstRejected(fs: seq<Finding>): (r: Option<nat>)
    ensures r.Some? ==> r.value < |fs|
  {
    if fs == [] then None
    else
      var rest := FirstRejected(fs[..|fs| - 1]);
      if rest.Some? then rest else if Refuses(fs[|fs| - 1]) then Some(|fs| - 1) else None
  }

  lemma {:induction false} FirstRejectedIsFirst(fs: seq<Finding>)
    ensures FirstRejected(fs).Some? ==> Refuses(fs[FirstRejected(fs).value])
    ensures forall i | 0 <= i < |fs| && Refuses(fs[i]) :: FirstRejected(fs).Some? && FirstRejected(fs).value <= i
  {
    if fs != [] {
      FirstRejectedIsFirst(fs[..|fs| - 1]);
    }
  }

  predicate HasEntropy(fs: seq<Finding>) {
    exists i :: 0 <= i < |fs| && fs[i].detector == ENTROPY
  }

  function Raised(c: real): real { if c + 0.05 < 1.0 then c + 0.05 else 1.0 }

  function Raise(f: Finding): Finding { f.(confidence := Raised(f.confidence)) }

  /** An entropy hit raises the confidence of the first detector that refuses. */
  function Bumped(fs: seq<Finding>): (r: seq<Finding>)
    ensures |r| == |fs|
  {
    var first := FirstRejected(fs);
    if HasEntropy(fs) && first.Some? then fs[first.value := Raise(fs[first.value])] else fs
  }

  predicate SameHit(f: Finding, g: Finding) {
    f.detector == g.detector && f.path == g.path && f.reject == g.reject && f.inKey == g.inKey && f.underKey == g.underKey
  }

  /** Entropy changes nothing but the confidence of one refusing hit, and never lowers it. */
  lemma {:induction false} BumpedAt(fs: seq<Finding>, i: nat)
    requires i < |fs|
    ensures SameHit(Bumped(fs)[i], fs[i])
    ensures Bumped(fs)[i] != fs[i] ==> Refuses(fs[i]) && HasEntropy(fs) && forall j | 0 <= j < i :: !Refuses(fs[j])
    ensures fs[i].confidence <= 1.0 ==> fs[i].confidence <= Bumped(fs)[i].confidence <= 1.0
  {
    FirstRejectedIsFirst(fs);
  }

  /** scanInto. */
  function ScanText(ds: seq<Detector>, path: PathOf, s: string): seq<Finding> {
    if |s| < MIN_SCAN_LENGTH then [] else Bumped(Hits(ds, path, s))
  }

  /** The detector finds something in the text, alone. */
  predicate Detects(d: Detector, s: string) {
    |s| >= MIN_SCAN_LENGTH && d.match_(s).Some?
  }

  ghost predicate RejectedAlone(ds: seq<Detector>, s: string) {
    exists d :: d in ds && d.reject && Detects(d, s)
  }

  /** The finding is the detector's, at the place. */
  predicate IsHit(d: Detector, path: PathOf, s: string, f: Finding) {
    d.match_(s).Some? && f.detector == d.name && f.path == path(d.match_(s).value) && f.reject == d.reject
    && !f.inKey && !f.underKey
  }

  /** Each detector that matches has a hit. */
  lemma {:induction false} HitOf(ds: seq<Detector>, path: PathOf, s: string, d: Detector) returns (i: nat)
    requires d in ds && d.match_(s).Some?
    ensures i < |Hits(ds, path, s)| && IsHit(d, path, s, Hits(ds, path, s)[i])
  {
    var rest, last := ds[..|ds| - 1], ds[|ds| - 1];
    if d == last {
      i := |Hits(rest, path, s)|;
    } else {
      i := HitOf(rest, path, s, d);
    }
  }

  /** Each hit has its detector. */
  lemma {:induction false} DetectorOf(ds: seq<Detector>, path: PathOf, s: string, i: nat) returns (d: Detector)
    requires i < |Hits(ds, path, s)|
    ensures d in ds && IsHit(d, path, s, Hits(ds, path, s)[i])
  {
    var rest, last := ds[..|ds| - 1], ds[|ds| - 1];
    if i < |Hits(rest, path, s)| {
      d := DetectorOf(rest, path, s, i);
    } else {
      d := last;
    }
  }

  /** A detector finds the text exactly when the text has a finding of it, at the place given. */
  lemma {:induction false} FindingOf(ds: seq<Detector>, path: PathOf, s: string, d: Detector) returns (i: nat)
    requires d in ds && Detects(d, s)
    ensures i < |ScanText(ds, path, s)| && IsHit(d, path, s, ScanText(ds, path, s)[i])
  {
    i := HitOf(ds, path, s, d);
    BumpedAt(Hits(ds, path, s), i);
  }

  lemma {:induction false} FindingHas(ds: seq<Detector>, path: PathOf, s: string, i: nat) returns (d: Detector)
    requires i < |ScanText(ds, path, s)|
    ensures d in ds && Detects(d, s) && IsHit(d, path, s, ScanText(ds, path, s)[i])
  {
    d := DetectorOf(ds, path, s, i);
    BumpedAt(Hits(ds, path, s), i);
  }

  /** A text is rejected exactly when one of its detectors rejects it, entropy or not. */
  lemma {:induction false} TextRejects(ds: seq<Detector>, path: PathOf, s: string)
    ensures Rejects(ScanText(ds, path, s)) <==> RejectedAlone(ds, s)
  {
    var fs := ScanText(ds, path, s);
    if Rejects(fs) {
      var i :| 0 <= i < |fs| && fs[i].reject;
      var d := FindingHas(ds, path, s, i);
      assert d.reject;
    }
    if RejectedAlone(ds, s) {
      var d :| d in ds && d.reject && Detects(d, s);
      var i := FindingOf(ds, path, s, d);
      assert fs[i].reject;
    }
  }

  // ---- a document --------------------------------------------------------------------------------

  function Marked(fs: seq<Finding>, inKey: bool, hidden: bool): (r: seq<Finding>)
    ensures |r| == |fs|
    ensures forall i | 0 <= i < |fs| :: r[i] == fs[i].(inKey := inKey, underKey := hidden)
  {
    seq(|fs|, i requires 0 <= i < |fs| => fs[i].(inKey := inKey, underKey := hidden))
  }

  /** The text of a key the detectors see: the schema's extension prefix is stripped. */
  function KeyText(k: string): string {
    if "x_" <= k then k[2..] else k
  }

  function Token(k: string): string { "/" + Escape(k) }

  /** A text the walk scans: where, whether it is a key, and whether a flagged key is above it. */
  datatype Visit = Visit(text: string, path: string, inKey: bool, hidden: bool)

  /** What the walk depends on: the findings of a text, the keys that produce none, and how a member and
      an item extend the pointer. */
  datatype Walker = Walker(found: Visit -> seq<Finding>, quiet: string -> bool, member: string -> string, item: nat -> string)

  /** The texts of v in the order of the walk. Below a key that is not quiet the pointer stays at the
      object that holds it. */
  ghost function Visits(w: Walker, path: string, v: Json, hidden: bool): seq<Visit>
    decreases v, 2, 0
  {
    match v
    case Str(s) => [Visit(s, path, false, hidden)]
    case Obj(m) => SortedMembers(m); MemberVisits(w, path, v, SortedKeys(m.Keys), hidden)
    case Arr(items) => ItemVisits(w, path, v, |items|, hidden)
    case _ => []
  }

  ghost function MemberVisits(w: Walker, path: string, v: Json, keys: seq<string>, hidden: bool): seq<Visit>
    requires v.Obj? && forall i | 0 <= i < |keys| :: keys[i] in v.members
    decreases v, 1, |keys|
  {
    if keys == [] then []
    else MemberVisits(w, path, v, keys[..|keys| - 1], hidden) + MemberVisit(w, path, v, keys[|keys| - 1], hidden)
  }

  ghost function MemberVisit(w: Walker, path: string, v: Json, k: string, hidden: bool): seq<Visit>
    requires v.Obj? && k in v.members
    decreases v, 0, 0
  {
    var below := hidden || !w.quiet(KeyText(k));
    [Visit(KeyText(k), path, true, hidden)] + Visits(w, if below then path else path + w.member(k), v.members[k], below)
  }

  ghost function ItemVisits(w: Walker, path: string, v: Json, n: nat, hidden: bool): seq<Visit>
    requires v.Arr? && n <= |v.items|
    decreases v, 1, n
  {
    if n == 0 then []
    else ItemVisits(w, path, v, n - 1, hidden)
         + Visits(w, if hidden then path else path + w.item(n - 1), v.items[n - 1], hidden)
  }

  lemma {:induction false} ItemVisitsStep(w: Walker, path: string, v: Json, n: nat, hidden: bool)
    returns (front: seq<Visit>, own: seq<Visit>)
    requires v.Arr? && 0 < n <= |v.items|
    ensures front == ItemVisits(w, path, v, n - 1, hidden)
    ensures own == Visits(w, if hidden then path else path + w.item(n - 1), v.items[n - 1], hidden)
    ensures ItemVisits(w, path, v, n, hidden) == front + own
  {
    front := ItemVisits(w, path, v, n - 1, hidden);
    own := Visits(w, if hidden then path else path + w.item(n - 1), v.items[n - 1], hidden);
  }

  lemma {:induction false} SortedMembers(m: Members)
    ensures forall i | 0 <= i < |SortedKeys(m.Keys)| :: SortedKeys(m.Keys)[i] in m
    ensures forall k | k in m :: k in SortedKeys(m.Keys)
  {
    forall k: string ensures k in SortedKeys(m.Keys) <==> k in m.Keys {
      SortedKeysAreKeys(m.Keys, k);
    }
  }

  /** The findings of one visit. */
  function Found(ds: seq<Detector>, visit: Visit): seq<Finding> {
    Marked(ScanText(ds, AtPointer(visit.path), visit.text), visit.inKey, visit.hidden)
  }

  /** The findings of the visits, up to the first that rejects. */
  function Run(found: Visit -> seq<Finding>, visits: seq<Visit>): seq<Finding> {
    if visits == [] then []
    else
      var before := Run(found, visits[..|visits| - 1]);
      if Rejects(before) then before else before + found(visits[|visits| - 1])
  }

  /** No detector finds anything in the text: its key does not flag what is below it. */
  ghost predicate Quiet(ds: seq<Detector>, s: string) {
    forall d | d in ds :: !Detects(d, s)
  }

  lemma {:induction false} QuietIff(ds: seq<Detector>, path: PathOf, s: string)
    ensures ScanText(ds, path, s) == [] <==> Quiet(ds, s)
  {
    if ScanText(ds, path, s) != [] {
      var d := FindingHas(ds, path, s, 0);
    }
    if !Quiet(ds, s) {
      var d :| d in ds && Detects(d, s);
      var i := FindingOf(ds, path, s, d);
    }
  }

  ghost function Refused(ds: seq<Detector>): string -> bool { s => RejectedAlone(ds, s) }

  /** The walk of secretguard: RFC 6901 pointers, and the detectors' findings. */
  ghost function WalkerOf(ds: seq<Detector>): Walker {
    Walker(visit => Found(ds, visit), s => Quiet(ds, s), k => Token(k), i => Token(Itoa(i)))
  }

  /** What the walk of a document reports. */
  ghost function Report(w: Walker, doc: Json): seq<Finding> {
    Run(w.found, Visits(w, "", doc, false))
  }

  // ---- the run of the visits ---------------------------------------------------------------------

  lemma {:induction false} RejectsAppend(a: seq<Finding>, b: seq<Finding>)
    ensures Rejects(a + b) <==> Rejects(a) || Rejects(b)
  {
    if Rejects(b) {
      var i :| 0 <= i < |b| && b[i].reject;
      assert (a + b)[|a| + i].reject;
    }
    if Rejects(a) {
      var i :| 0 <= i < |a| && a[i].reject;
      assert (a + b)[i].reject;
    }
  }

  lemma {:induction false} FoundRejects(ds: seq<Detector>, visit: Visit)
    ensures Rejects(Found(ds, visit)) <==> RejectedAlone(ds, visit.text)
  {
    var fs := ScanText(ds, AtPointer(visit.path), visit.text);
    TextRejects(ds, AtPointer(visit.path), visit.text);
    if Rejects(fs) {
      var i :| 0 <= i < |fs| && fs[i].reject;
      assert Found(ds, visit)[i].reject;
    }
  }

  /** Visits in two parts run one after the other, the second only while nothing rejects. */
  lemma {:induction false} RunAppend(found: Visit -> seq<Finding>, a: seq<Visit>, b: seq<Visit>)
    ensures Rejects(Run(found, a)) ==> Run(found, a + b) == Run(found, a)
    ensures !Rejects(Run(found, a)) ==> Run(found, a + b) == Run(found, a) + Run(found, b)
  {
    if b == [] {
      assert a + b == a;
    } else {
      var rest, last := b[..|b| - 1], b[|b| - 1];
      assert (a + b)[..|a + b| - 1] == a + rest;
      RunAppend(found, a, rest);
      RejectsAppend(Run(found, a), Run(found, rest));
      assert Run(found, a) + (Run(found, rest) + found(last)) == Run(found, a) + Run(found, rest) + found(last);
    }
  }

  predicate SomeRefused(refused: string -> bool, visits: seq<Visit>) {
    exists i :: 0 <= i < |visits| && refused(visits[i].text)
  }

  lemma {:induction false} SomeAppend(refused: string -> bool, a: seq<Visit>, b: seq<Visit>)
    ensures SomeRefused(refused, a + b) <==> SomeRefused(refused, a) || SomeRefused(refused, b)
  {
    if SomeRefused(refused, b) {
      var i :| 0 <= i < |b| && refused(b[i].text);
      assert refused((a + b)[|a| + i].text);
    }
    if SomeRefused(refused, a) {
      var i :| 0 <= i < |a| && refused(a[i].text);
      assert refused((a + b)[i].text);
    }
  }

  /** The early stop changes no verdict: a run rejects exactly when some text alone does. */
  lemma {:induction false} RunRejects(w: Walker, refused: string -> bool, visits: seq<Visit>)
    requires forall visit :: RefusesAs(w, refused, visit)
    ensures Rejects(Run(w.found, visits)) <==> SomeRefused(refused, visits)
  {
    if visits != [] {
      var rest, last := visits[..|visits| - 1], visits[|visits| - 1];
      RunRejects(w, refused, rest);
      RejectsAppend(Run(w.found, rest), w.found(last));
      assert RefusesAs(w, refused, last);
      assert visits == rest + [last];
      SomeAppend(refused, rest, [last]);
      assert SomeRefused(refused, [last]) <==> refused([last][0].text);
    }
  }

  /** Every finding of a run is a finding of one of its visits. */
  lemma {:induction false} FoundBy(found: Visit -> seq<Finding>, visits: seq<Visit>, i: nat) returns (j: nat, k: nat)
    requires i < |Run(found, visits)|
    ensures j < |visits| && k < |found(visits[j])| && Run(found, visits)[i] == found(visits[j])[k]
  {
    var rest := visits[..|visits| - 1];
    if i < |Run(found, rest)| {
      j, k := FoundBy(found, rest, i);
    } else {
      j, k := |rest|, i - |Run(found, rest)|;
    }
  }

  /** When nothing rejects, every finding of every visit is reported. */
  lemma {:induction false} AllReported(found: Visit -> seq<Finding>, visits: seq<Visit>, j: nat, k: nat) returns (i: nat)
    requires !Rejects(Run(found, visits)) && j < |visits| && k < |found(visits[j])|
    ensures i < |Run(found, visits)| && Run(found, visits)[i] == found(visits[j])[k]
  {
    var rest := visits[..|visits| - 1];
    RejectsAppend(Run(found, rest), found(visits[|visits| - 1]));
    if j < |rest| {
      i := AllReported(found, rest, j, k);
    } else {
      i := |Run(found, rest)| + k;
    }
  }

  // ---- the document is refused exactly when a text is --------------------------------------------

  /** Some string leaf or some key, its extension prefix stripped, is refused. */
  ghost predicate HasRefused(refused: string -> bool, v: Json)
    decreases v, 1
  {
    match v
    case Str(s) => refused(s)
    case Obj(m) => exists k :: k in m && RefusedMember(refused, v, k)
    case Arr(items) => SomeItem(refused, v, |items|)
    case _ => false
  }

  /** One of the first n items. */
  ghost predicate SomeItem(refused: string -> bool, v: Json, n: nat)
    requires v.Arr? && n <= |v.items|
    decreases v, 0, n
  {
    n > 0 && (SomeItem(refused, v, n - 1) || HasRefused(refused, v.items[n - 1]))
  }

  ghost predicate RefusedMember(refused: string -> bool, v: Json, k: string)
    requires v.Obj? && k in v.members
    decreases v, 0
  {
    refused(KeyText(k)) || HasRefused(refused, v.members[k])
  }

  /** The visits cover the texts of the document, whatever the keys hide. */
  lemma {:induction false} VisitsCover(refused: string -> bool, w: Walker, path: string, v: Json, hidden: bool)
    ensures SomeRefused(refused, Visits(w, path, v, hidden)) <==> HasRefused(refused, v)
    decreases v, 2, 0
  {
    match v
    case Str(s) =>
      assert Visits(w, path, v, hidden)[0].text == s;
    case Obj(m) =>
      SortedMembers(m);
      MembersCover(refused, w, path, v, SortedKeys(m.Keys), hidden);
    case Arr(items) =>
      ItemsCover(refused, w, path, v, |items|, hidden);
    case _ =>
  }

  lemma {:induction false} MembersCover(refused: string -> bool, w: Walker, path: string, v: Json, keys: seq<string>, hidden: bool)
    requires v.Obj? && forall i | 0 <= i < |keys| :: keys[i] in v.members
    ensures SomeRefused(refused, MemberVisits(w, path, v, keys, hidden)) <==> exists i :: 0 <= i < |keys| && RefusedMember(refused, v, keys[i])
    decreases v, 1, |keys|
  {
    if keys != [] {
      var rest, k := keys[..|keys| - 1], keys[|keys| - 1];
      MembersCover(refused, w, path, v, rest, hidden);
      MemberCovers(refused, w, path, v, k, hidden);
      SomeAppend(refused, MemberVisits(w, path, v, rest, hidden), MemberVisit(w, path, v, k, hidden));
      SomeKey(refused, v, keys);
    }
  }

  lemma {:induction false} SomeKey(refused: string -> bool, v: Json, keys: seq<string>)
    requires keys != [] && v.Obj? && forall i | 0 <= i < |keys| :: keys[i] in v.members
    ensures var rest := keys[..|keys| - 1];
            (exists i :: 0 <= i < |keys| && RefusedMember(refused, v, keys[i]))
            <==> (exists i :: 0 <= i < |rest| && RefusedMember(refused, v, rest[i])) || RefusedMember(refused, v, keys[|keys| - 1])
  {
    var rest := keys[..|keys| - 1];
    if i :| 0 <= i < |rest| && RefusedMember(refused, v, rest[i]) {
      assert RefusedMember(refused, v, keys[i]);
    }
    if i :| 0 <= i < |keys| && RefusedMember(refused, v, keys[i]) {
      assert i < |rest| ==> rest[i] == keys[i];
    }
  }

  lemma {:induction false} MemberCovers(refused: string -> bool, w: Walker, path: string, v: Json, k: string, hidden: bool)
    requires v.Obj? && k in v.members
    ensures SomeRefused(refused, MemberVisit(w, path, v, k, hidden)) <==> RefusedMember(refused, v, k)
    decreases v, 0, 0
  {
    var below := hidden || !w.quiet(KeyText(k));
    var at := if below then path else path + w.member(k);
    var key := [Visit(KeyText(k), path, true, hidden)];
    VisitsCover(refused, w, at, v.members[k], below);
    SomeAppend(refused, key, Visits(w, at, v.members[k], below));
    assert key[0].text == KeyText(k);
  }

  lemma {:induction false} ItemsCover(refused: string -> bool, w: Walker, path: string, v: Json, n: nat, hidden: bool)
    requires v.Arr? && n <= |v.items|
    ensures SomeRefused(refused, ItemVisits(w, path, v, n, hidden)) <==> SomeItem(refused, v, n)
    decreases v, 1, n
  {
    if n > 0 {
      var at := if hidden then path else path + w.item(n - 1);
      VisitsCover(refused, w, at, v.items[n - 1], hidden);
      ItemsCover(refused, w, path, v, n - 1, hidden);
      SomeAppend(refused, ItemVisits(w, path, v, n - 1, hidden), Visits(w, at, v.items[n - 1], hidden));
    }
  }

  ghost predicate RefusesAs(w: Walker, refused: string -> bool, visit: Visit) {
    Rejects(w.found(visit)) <==> refused(visit.text)
  }

  /** A document is refused exactly when one of its texts is rejected alone. */
  lemma {:induction false} ReportRejects(ds: seq<Detector>, w: Walker, doc: Json)
    requires w == WalkerOf(ds)
    ensures Rejects(Report(w, doc)) <==> HasRefused(Refused(ds), doc)
  {
    forall visit ensures RefusesAs(w, Refused(ds), visit) {
      FoundRejects(ds, visit);
    }
    VisitsCover(Refused(ds), w, "", doc, false);
    RunRejects(w, Refused(ds), Visits(w, "", doc, false));
  }
}
