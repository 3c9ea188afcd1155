/** What the secret guard refuses and reports, said of the document, its keys and the detectors alone
    (secretguard/secretguard.go). */
module SecretLaws {
  import opened Options
  import opened Text
  import opened Json
  import opened Pointers
  import opened Sorting
  import opened Secrets
  import opened SecretPaths

  // ---- one text ----------------------------------------------------------------------------------

  /** A rejecting detector matches the text, which is long enough to hold a credential. */
  ghost predicate Caught(ds: seq<Detector>, s: string) {
    |s| >= 12 && exists d :: d in ds && d.reject && d.match_(s).Some?
  }

  /** A short text has no findings; the others have the findings of their detectors, in their order. */
  lemma {:induction false} TextFindings(ds: seq<Detector>, path: PathOf, s: string)
    ensures |s| < 12 ==> ScanText(ds, path, s) == []
    ensures |s| >= 12 ==> |ScanText(ds, path, s)| == |Matching(ds, s)|
    ensures forall i | 0 <= i < |ScanText(ds, path, s)| ::
              var f, d := ScanText(ds, path, s)[i], Matching(ds, s)[i];
              f.detector == d.name && f.reject == d.reject && f.path == path(d.match_(s).value) && !f.inKey && !f.underKey
  {
    HitsMatch(ds, path, s);
    forall i | 0 <= i < |Hits(ds, path, s)| ensures SameHit(Bumped(Hits(ds, path, s))[i], Hits(ds, path, s)[i]) {
      BumpedAt(Hits(ds, path, s), i);
      assert HitBy(Matching(ds, s)[i], path, s, Hits(ds, path, s)[i]);
    }
  }

  /** The detectors that match, in order. */
  function Matching(ds: seq<Detector>, s: string): (r: seq<Detector>)
    ensures forall i | 0 <= i < |r| :: r[i] in ds && r[i].match_(s).Some?
  {
    if ds == [] then []
    else if ds[0].match_(s).Some? then [ds[0]] + Matching(ds[1..], s)
    else Matching(ds[1..], s)
  }

  lemma LastHit(ds: seq<Detector>, d: Detector, path: PathOf, s: string)
    ensures Hits(ds + [d], path, s) == Hits(ds, path, s) + NewFindings(d, path, s)
  {
    assert (ds + [d])[..|ds|] == ds;
  }

  lemma Grouped(a: seq<Finding>, b: seq<Finding>, c: seq<Finding>)
    ensures a + b + c == a + (b + c)
  {}

  lemma {:induction false} FirstHit(ds: seq<Detector>, path: PathOf, s: string)
    requires ds != []
    ensures Hits(ds, path, s) == NewFindings(ds[0], path, s) + Hits(ds[1..], path, s)
  {
    var front, last := ds[..|ds| - 1], ds[|ds| - 1];
    if front == [] {
      assert ds[1..] == [];
    } else {
      FirstHit(front, path, s);
      LastHit(front[1..], last, path, s);
      assert front[1..] + [last] == ds[1..];
      Grouped(NewFindings(ds[0], path, s), Hits(front[1..], path, s), NewFindings(last, path, s));
    }
  }

  predicate HitBy(d: Detector, path: PathOf, s: string, f: Finding) { IsHit(d, path, s, f) && f.confidence == d.confidence }

  lemma {:induction false} HitsMatch(ds: seq<Detector>, path: PathOf, s: string)
    ensures |Hits(ds, path, s)| == |Matching(ds, s)|
    ensures forall i | 0 <= i < |Hits(ds, path, s)| :: HitBy(Matching(ds, s)[i], path, s, Hits(ds, path, s)[i])
  {
    if ds != [] {
      HitsMatch(ds[1..], path, s);
      FirstHit(ds, path, s);
      if ds[0].match_(s).Some? {
        assert HitBy(ds[0], path, s, NewFinding(ds[0], path, s));
        Prepended(ds[0], Matching(ds[1..], s), path, s, NewFinding(ds[0], path, s), Hits(ds[1..], path, s));
      }
    }
  }

  lemma Prepended(d: Detector, ds: seq<Detector>, path: PathOf, s: string, f: Finding, fs: seq<Finding>)
    requires |fs| == |ds| && HitBy(d, path, s, f) && forall i | 0 <= i < |fs| :: HitBy(ds[i], path, s, fs[i])
    ensures forall i | 0 <= i < |fs| + 1 :: HitBy(([d] + ds)[i], path, s, ([f] + fs)[i])
  {}

  /** The confidence reported is the detector's own; only where an entropy hit stands beside it, the first
      detector that rejects for another reason is raised by a twentieth, to one at most. */
  lemma {:induction false} TextConfidence(ds: seq<Detector>, path: PathOf, s: string, i: nat)
    requires |s| >= 12 && i < |Matching(ds, s)|
    ensures |ScanText(ds, path, s)| == |Matching(ds, s)|
    ensures var d := Matching(ds, s)[i];
            ScanText(ds, path, s)[i].confidence
            == if !Lifted(Matching(ds, s), i) then d.confidence else if d.confidence + 0.05 < 1.0 then d.confidence + 0.05 else 1.0
  {
    HitsMatch(ds, path, s);
    LiftedIsBumped(Matching(ds, s), path, s, Hits(ds, path, s), i);
  }

  /** An entropy hit is among them, and detector i is the first that rejects for another reason. */
  ghost predicate Lifted(ms: seq<Detector>, i: nat)
    requires i < |ms|
  {
    (exists e :: e in ms && e.name == "high_entropy_token")
    && ms[i].reject && ms[i].name != "high_entropy_token"
    && forall j | 0 <= j < i :: !ms[j].reject || ms[j].name == "high_entropy_token"
  }

  lemma {:induction false} LiftedIsBumped(ms: seq<Detector>, path: PathOf, s: string, hs: seq<Finding>, i: nat)
    requires i < |ms| == |hs| && forall k | 0 <= k < |hs| :: HitBy(ms[k], path, s, hs[k])
    ensures Bumped(hs)[i].confidence
         == if !Lifted(ms, i) then ms[i].confidence else if ms[i].confidence + 0.05 < 1.0 then ms[i].confidence + 0.05 else 1.0
  {
    EntropyAmong(ms, path, s, hs);
    FirstOf(ms, path, s, hs, i);
    assert HitBy(ms[i], path, s, hs[i]);
  }

  lemma {:induction false} EntropyAmong(ms: seq<Detector>, path: PathOf, s: string, hs: seq<Finding>)
    requires |ms| == |hs| && forall k | 0 <= k < |hs| :: HitBy(ms[k], path, s, hs[k])
    ensures HasEntropy(hs) <==> exists e :: e in ms && e.name == "high_entropy_token"
  {
    if HasEntropy(hs) {
      var j :| 0 <= j < |hs| && hs[j].detector == ENTROPY;
      assert HitBy(ms[j], path, s, hs[j]) && ms[j] in ms;
    }
    if e :| e in ms && e.name == "high_entropy_token" {
      var j :| 0 <= j < |ms| && ms[j] == e;
      assert HitBy(ms[j], path, s, hs[j]);
      assert hs[j].detector == ENTROPY;
    }
  }

  lemma {:induction false} FirstOf(ms: seq<Detector>, path: PathOf, s: string, hs: seq<Finding>, i: nat)
    requires i < |ms| == |hs| && forall k | 0 <= k < |hs| :: HitBy(ms[k], path, s, hs[k])
    ensures FirstRejected(hs) == Some(i) <==>
            ms[i].reject && ms[i].name != "high_entropy_token"
            && forall j | 0 <= j < i :: !ms[j].reject || ms[j].name == "high_entropy_token"
  {
    FirstRejectedIsFirst(hs);
    forall k | 0 <= k < |hs| ensures Refuses(hs[k]) <==> ms[k].reject && ms[k].name != "high_entropy_token" {
      assert HitBy(ms[k], path, s, hs[k]);
    }
  }

  /** A text without a pointer is reported by the bytes of the hit. */
  lemma SpanIsBytes(span: (nat, nat))
    ensures AtSpan()(span) == "bytes[" + Itoa(span.0) + ":" + Itoa(span.1) + "]"
    ensures forall pointer: string :: AtPointer(pointer)(span) == pointer
  {}

  // ---- a document --------------------------------------------------------------------------------

  /** The key is caught: what follows the prefix "x_", or the whole key where it has no such prefix. */
  ghost predicate CaughtKey(ds: seq<Detector>, k: string) {
    (exists s :: k == "x_" + s && Caught(ds, s)) || ((forall s :: k != "x_" + s) && Caught(ds, k))
  }

  /** The value itself is a caught string, or an object with a caught key. */
  ghost predicate CaughtValue(ds: seq<Detector>, v: Json) {
    match v
    case Str(s) => Caught(ds, s)
    case Obj(m) => exists k :: k in m && CaughtKey(ds, k)
    case _ => false
  }

  ghost predicate CaughtAt(ds: seq<Detector>, doc: Json, p: seq<string>) {
    Holds(doc, p) && CaughtValue(ds, ValueAt(doc, p))
  }

  lemma CaughtIsRefused(ds: seq<Detector>, s: string)
    ensures Refused(ds)(s) <==> Caught(ds, s)
  {
    if Caught(ds, s) {
      var d :| d in ds && d.reject && d.match_(s).Some?;
      assert Detects(d, s);
    }
    if RejectedAlone(ds, s) {
      var d :| d in ds && d.reject && Detects(d, s);
      assert d.match_(s).Some?;
    }
  }

  lemma KeyIsStripped(k: string, s: string)
    ensures KeyText("x_" + s) == s
    ensures (forall t :: k != "x_" + t) ==> KeyText(k) == k
  {
    assert ("x_" + s)[2..] == s;
    if "x_" <= k {
      assert k == "x_" + k[2..];
    }
  }

  lemma {:induction false} CaughtKeyIsRefused(ds: seq<Detector>, k: string)
    ensures Refused(ds)(KeyText(k)) <==> CaughtKey(ds, k)
  {
    if s :| k == "x_" + s {
      KeyIsStripped(k, s);
      CaughtIsRefused(ds, s);
      assert forall t :: k == "x_" + t ==> t == k[2..] == s;
    } else {
      KeyIsStripped(k, "");
      CaughtIsRefused(ds, k);
    }
  }

  /** A refused text is at some path. */
  lemma {:induction false} RefusedHasPlace(ds: seq<Detector>, v: Json) returns (p: seq<string>)
    requires HasRefused(Refused(ds), v)
    ensures CaughtAt(ds, v, p)
    decreases v, 1
  {
    match v {
      case Str(s) =>
        p := [];
        CaughtIsRefused(ds, s);
      case Obj(m) =>
        var k :| k in m && RefusedMember(Refused(ds), v, k);
        p := MemberHasPlace(ds, v, k);
      case Arr(items) =>
        p := ItemHasPlace(ds, v, |items|);
    }
  }

  lemma {:induction false} MemberHasPlace(ds: seq<Detector>, v: Json, k: string) returns (p: seq<string>)
    requires v.Obj? && k in v.members && RefusedMember(Refused(ds), v, k)
    ensures CaughtAt(ds, v, p)
    decreases v, 0
  {
    if Refused(ds)(KeyText(k)) {
      p := [];
      CaughtKeyIsRefused(ds, k);
    } else {
      var q := RefusedHasPlace(ds, v.members[k]);
      p := [k] + q;
      assert p[1..] == q;
    }
  }

  lemma {:induction false} ItemHasPlace(ds: seq<Detector>, v: Json, n: nat) returns (p: seq<string>)
    requires v.Arr? && n <= |v.items| && SomeItem(Refused(ds), v, n)
    ensures CaughtAt(ds, v, p)
    decreases v, 0, n
  {
    if SomeItem(Refused(ds), v, n - 1) {
      p := ItemHasPlace(ds, v, n - 1);
    } else {
      var q := RefusedHasPlace(ds, v.items[n - 1]);
      p := IndexPath(v, n - 1, q);
    }
  }

  /** And what is caught anywhere refuses the whole. */
  lemma {:induction false} PlaceIsRefused(ds: seq<Detector>, v: Json, p: seq<string>)
    requires CaughtAt(ds, v, p)
    ensures HasRefused(Refused(ds), v)
    decreases |p|
  {
    if p == [] {
      ValueIsRefused(ds, v);
    } else if v.Obj? {
      PlaceIsRefused(ds, v.members[p[0]], p[1..]);
      assert RefusedMember(Refused(ds), v, p[0]);
    } else {
      var i := IndexOf(p[0], |v.items|).value;
      PlaceIsRefused(ds, v.items[i], p[1..]);
      ItemIsRefused(Refused(ds), v, |v.items|, i);
    }
  }

  lemma {:induction false} ValueIsRefused(ds: seq<Detector>, v: Json)
    requires CaughtValue(ds, v)
    ensures HasRefused(Refused(ds), v)
  {
    match v {
      case Str(s) => CaughtIsRefused(ds, s);
      case Obj(m) =>
        var k :| k in m && CaughtKey(ds, k);
        CaughtKeyIsRefused(ds, k);
        assert RefusedMember(Refused(ds), v, k);
    }
  }

  lemma {:induction false} ItemIsRefused(refused: string -> bool, v: Json, n: nat, i: nat)
    requires v.Arr? && i < n <= |v.items| && HasRefused(refused, v.items[i])
    ensures SomeItem(refused, v, n)
    decreases n
  {
    if i < n - 1 {
      ItemIsRefused(refused, v, n - 1, i);
    }
  }

  /** A document is refused exactly when, at some path in it, a string is caught, or a key: its text behind the
      extension prefix, or the whole key where it has none. */
  lemma {:induction false} RefusedIffCaught(ds: seq<Detector>, w: Walker, doc: Json)
    requires w == WalkerOf(ds)
    ensures Rejects(Report(w, doc)) <==> exists p :: CaughtAt(ds, doc, p)
  {
    ReportRejects(ds, w, doc);
    if HasRefused(Refused(ds), doc) {
      var p := RefusedHasPlace(ds, doc);
    }
    if p :| CaughtAt(ds, doc, p) {
      PlaceIsRefused(ds, doc, p);
    }
  }

  /** A credential behind the extension prefix refuses the document that has it as a key. */
  lemma {:induction false} PrefixedKeyIsRefused(ds: seq<Detector>, w: Walker, s: string, v: Json)
    requires w == WalkerOf(ds) && Caught(ds, s)
    ensures Rejects(Report(w, Obj(map["x_" + s := v])))
  {
    var doc := Obj(map["x_" + s := v]);
    var k := "x_" + s;
    assert k in doc.members && CaughtKey(ds, k);
    assert CaughtAt(ds, doc, []);
    RefusedIffCaught(ds, w, doc);
  }

  // ---- where it is reported ----------------------------------------------------------------------

  /** Below a key any detector finds something in, its extension prefix aside, nothing is reported with that key:
      every finding stands at the object, marked as in the key or under it. */
  lemma {:induction false} FlaggedKeyHides(ds: seq<Detector>, w: Walker, s: string, v: Json, i: nat)
    requires w == WalkerOf(ds) && |s| >= 12 && exists d :: d in ds && d.match_(s).Some?
    requires i < |Report(w, Obj(map["x_" + s := v]))|
    ensures var f := Report(w, Obj(map["x_" + s := v]))[i];
            f.path == "" && (f.inKey || f.underKey)
  {
    var doc := Obj(map["x_" + s := v]);
    var d :| d in ds && d.match_(s).Some?;
    assert Detects(d, s);
    KeyIsStripped("", s);
    var p, visit := FindingIsLocated(ds, w, doc, i);
    OnlyTheObject(w, s, v, p);
  }

  lemma OnlyTheObject(w: Walker, s: string, v: Json, p: seq<string>)
    requires !w.quiet(s) && Holds(Obj(map["x_" + s := v]), p) && Clean(w, Obj(map["x_" + s := v]), p)
    ensures p == []
  {
    KeyIsStripped("", s);
  }

  /** Below a key nothing is found in, a string is reported at the key. */
  lemma {:induction false} PlainKeyShows(ds: seq<Detector>, w: Walker, k: string, s: string, d: Detector) returns (i: nat)
    requires w == WalkerOf(ds) && d in ds && |s| >= 12 && d.match_(s).Some? && !Caught(ds, s)
    requires (forall t :: k != "x_" + t) && forall e | e in ds :: e.match_(k).None?
    ensures var doc := Obj(map[k := Str(s)]);
            i < |Report(w, doc)| && Report(w, doc)[i].detector == d.name
            && Report(w, doc)[i].path == JoinPointer([k]) && !Report(w, doc)[i].inKey && !Report(w, doc)[i].underKey
  {
    var doc := Obj(map[k := Str(s)]);
    KeyIsStripped(k, "");
    assert [k][1..] == [];
    assert Quiet(ds, k);
    CaughtIsRefused(ds, s);
    CaughtIsRefused(ds, k);
    forall j | j in doc.members ensures !RefusedMember(Refused(ds), doc, j) {}
    i := HitIsReported(ds, w, doc, [k], d);
  }

  // ---- the order of the walk, and where it stops -------------------------------------------------

  /** The first text that refuses ends the report: nothing behind it is reported. */
  lemma {:induction false} StopsAtRefusal(found: Visit -> seq<Finding>, visits: seq<Visit>, i: nat)
    requires i < |visits| && Rejects(found(visits[i]))
    ensures Run(found, visits) == Run(found, visits[..i + 1])
  {
    var front := visits[..i + 1];
    assert front[..i] == visits[..i] && front[i] == visits[i] && visits == front + visits[i + 1..];
    RejectsAppend(Run(found, visits[..i]), found(visits[i]));
    RunAppend(found, front, visits[i + 1..]);
  }

  /** Keys are read in their order, each before its value. */
  lemma {:induction false} KeysInOrder(w: Walker, v: Json, a: string, b: string, x: string, y: string)
    requires v.Obj? && v.members == map[a := Str(x), b := Str(y)]
    requires Before(a, b) && (forall t :: a != "x_" + t) && forall t :: b != "x_" + t
    ensures TextsAre(Visits(w, "", v, false), [a, x, b, y])
  {
    BeforeTotal(a, b);
    TwoKeys(a, b);
    assert v.members.Keys == {a, b};
    ObjectVisits(w, v, [a, b]);
    MembersInOrder(w, v, a, b, x, y);
  }

  /** The texts of the visits, in order. */
  predicate TextsAre(visits: seq<Visit>, texts: seq<string>) {
    |visits| == |texts| && forall i | 0 <= i < |texts| :: visits[i].text == texts[i]
  }

  lemma {:induction false} ObjectVisits(w: Walker, v: Json, keys: seq<string>)
    requires v.Obj? && SortedKeys(v.members.Keys) == keys && forall i | 0 <= i < |keys| :: keys[i] in v.members
    ensures Visits(w, "", v, false) == MemberVisits(w, "", v, keys, false)
  {}

  lemma {:induction false} MembersInOrder(w: Walker, v: Json, a: string, b: string, x: string, y: string)
    requires v.Obj? && a in v.members && b in v.members && v.members[a] == Str(x) && v.members[b] == Str(y)
    requires (forall t :: a != "x_" + t) && forall t :: b != "x_" + t
    ensures TextsAre(MemberVisits(w, "", v, [a, b], false), [a, x, b, y])
  {
    MemberTexts(w, v, a, x);
    MemberTexts(w, v, b, y);
    assert [a, b][..1] == [a] && [a][..0] == [];
    assert MemberVisits(w, "", v, [a], false) == [] + MemberVisit(w, "", v, a, false);
    assert MemberVisits(w, "", v, [a, b], false) == MemberVisits(w, "", v, [a], false) + MemberVisit(w, "", v, b, false);
  }

  lemma {:induction false} MemberTexts(w: Walker, v: Json, k: string, x: string)
    requires v.Obj? && k in v.members && v.members[k] == Str(x) && forall t :: k != "x_" + t
    ensures |MemberVisit(w, "", v, k, false)| == 2
    ensures MemberVisit(w, "", v, k, false)[0].text == k && MemberVisit(w, "", v, k, false)[1].text == x
  {
    KeyIsStripped(k, "");
  }

  lemma {:induction false} TwoKeys(a: string, b: string)
    requires Before(a, b) && a != b
    ensures SortedKeys({a, b}) == [a, b]
  {
    SortedPair(a, b);
    PairOf(a, b);
    SortedUnique(SortedKeys({a, b}), [a, b]);
  }

  lemma SortedPair(a: string, b: string)
    requires Before(a, b)
    ensures Sorted([a, b])
  {
    BeforeTotal(a, b);
  }

  lemma PairOf(a: string, b: string)
    requires a != b
    ensures multiset([a, b]) == multiset({a, b})
  {}
}
