/** The walk of secretguard/secretguard.go: findings grow in one result, and the JSON pointer of the
    place is kept in a byte buffer that siblings share. */
module SecretGuard {
  import opened Options
  import opened Text
  import opened Json
  import opened Pointers
  import opened Sorting
  import opened Secrets
  import opened SecretLaws
  import opened SecretPaths

  /** A Go slice that starts at the beginning of its array: the length is the holder's own, the array
      is shared. */
  datatype Slice = Slice(arr: array<char>, len: nat) {
    predicate Valid() { len <= arr.Length }

    function Text(): string
      reads arr
      requires Valid()
    {
      arr[..len]
    }
  }

  /** A larger copy, of any size. */
  method Grow(s: Slice) returns (out: Slice)
    requires s.Valid()
    ensures out.Valid() && fresh(out.arr) && out.len == s.len < out.arr.Length && out.Text() == s.Text()
  {
    var capacity: nat :| capacity > s.len;
    var grown := new char[capacity];
    for i := 0 to s.len
      invariant grown[..i] == s.arr[..i]
    {
      grown[i] := s.arr[i];
    }
    out := Slice(grown, s.len);
  }

  /** append: in place while the capacity lasts, else in a larger copy. */
  method Append(s: Slice, c: char) returns (out: Slice)
    requires s.Valid()
    modifies s.arr
    ensures out.Valid() && out.Text() == old(s.Text()) + [c]
    ensures s.Text() == old(s.Text())
    ensures out.arr == s.arr || fresh(out.arr)
  {
    out := s;
    if s.len == s.arr.Length {
      out := Grow(s);
    }
    out.arr[out.len] := c;
    out := Slice(out.arr, out.len + 1);
  }

  method AppendEscaped(s: Slice, c: char) returns (out: Slice)
    requires s.Valid()
    modifies s.arr
    ensures out.Valid() && out.Text() == old(s.Text()) + EscapedChar(c)
    ensures s.Text() == old(s.Text())
    ensures out.arr == s.arr || fresh(out.arr)
  {
    if c == '~' {
      out := Append(s, '~');
      out := AppendAfter(s, out, '0');
    } else if c == '/' {
      out := Append(s, '~');
      out := AppendAfter(s, out, '1');
    } else {
      out := Append(s, c);
    }
  }

  /** Appending to a slice that extends another one, in the same array or not, leaves the other alone. */
  method AppendAfter(s: Slice, longer: Slice, c: char) returns (out: Slice)
    requires s.Valid() && longer.Valid() && (longer.arr == s.arr ==> s.len <= longer.len)
    modifies longer.arr
    ensures out.Valid() && out.Text() == old(longer.Text()) + [c]
    ensures s.Text() == old(s.Text()) && longer.Text() == old(longer.Text())
    ensures out.arr == longer.arr || fresh(out.arr)
  {
    ghost var was := longer.arr[..longer.len];
    ghost var text := s.arr[..s.len];
    assert s.arr == longer.arr ==> text == was[..s.len];
    out := Append(longer, c);
    assert s.arr == longer.arr ==> s.arr[..s.len] == longer.arr[..longer.len][..s.len];
  }

  /** appendToken writes a slash and the escaped token after the caller's pointer; the caller's own
      slice still reads the same. */
  method AppendToken(ptr: Slice, token: string) returns (out: Slice)
    requires ptr.Valid()
    modifies ptr.arr
    ensures out.Valid() && out.Text() == old(ptr.Text()) + Token(token)
    ensures ptr.Text() == old(ptr.Text())
    ensures out.arr == ptr.arr || fresh(out.arr)
  {
    out := Append(ptr, '/');
    EscapeUnfold("");
    for i := 0 to |token|
      invariant out.Valid() && (out.arr == ptr.arr || fresh(out.arr)) && out.len >= ptr.len
      invariant out.Text() == old(ptr.Text()) + ("/" + Escape(token[..i]))
      invariant ptr.Text() == old(ptr.Text())
    {
      EscapeLast(token[..i], token[i]);
      assert token[..i + 1] == token[..i] + [token[i]];
      out := AppendEscapedAfter(ptr, out, token[i]);
    }
    assert token[..|token|] == token;
  }

  method AppendEscapedAfter(s: Slice, longer: Slice, c: char) returns (out: Slice)
    requires s.Valid() && longer.Valid() && (longer.arr == s.arr ==> s.len <= longer.len)
    modifies longer.arr
    ensures out.Valid() && out.Text() == old(longer.Text()) + EscapedChar(c) && out.len >= longer.len
    ensures s.Text() == old(s.Text())
    ensures out.arr == longer.arr || fresh(out.arr)
  {
    ghost var was := longer.arr[..longer.len];
    ghost var text := s.arr[..s.len];
    assert s.arr == longer.arr ==> text == was[..s.len];
    out := AppendEscaped(longer, c);
    assert out.len == |out.Text()|;
    assert s.arr == longer.arr ==> s.arr[..s.len] == longer.arr[..longer.len][..s.len];
  }

  lemma {:induction false} EscapeLast(t: string, c: char)
    ensures Escape(t + [c]) == Escape(t) + EscapedChar(c)
  {
    EscapeUnfold(t + [c]);
    if t == "" {
      assert t + [c] == [c];
      EscapeUnfold("");
      assert [c][1..] == "";
    } else {
      EscapeUnfold(t);
      assert (t + [c])[1..] == t[1..] + [c];
      EscapeLast(t[1..], c);
    }
  }

  class Result {
    var findings: seq<Finding>

    constructor ()
      ensures findings == []
    {
      findings := [];
    }

    /** One detector over the text, after those that found hs. */
    method RunDetector(d: Detector, ptr: Slice, structured: bool, s: string, first: int, seen: bool,
                       ghost path: PathOf, ghost before: seq<Finding>, ghost hs: seq<Finding>)
      returns (rejected: int, entropy: bool)
      requires ptr.Valid() && Places(path, ptr, structured) && Ran(before, hs, findings, first, seen)
      modifies this
      ensures Ran(before, hs + NewFindings(d, path, s), findings, rejected, entropy)
    {
      rejected, entropy := first, seen;
      var span := d.match_(s);
      if span.Some? {
        var at := SpanText(span.value);
        if structured {
          at := ptr.arr[..ptr.len];
        }
        var f := Finding(d.name, at, d.confidence, d.reject, false, false);
        assert Place(path, ptr, structured, span.value);
        RanOne(before, hs, findings, first, seen, f);
        findings := findings + [f];
        if d.name == ENTROPY {
          entropy := true;
        } else if d.reject && rejected < 0 {
          rejected := |findings| - 1;
        }
      } else {
        assert hs + [] == hs;
      }
    }

    /** The detectors, in order: the findings, the first that rejects and whether entropy matched. */
    method RunDetectors(ds: seq<Detector>, ptr: Slice, structured: bool, s: string, ghost path: PathOf) returns (rejected: int, entropy: bool)
      requires ptr.Valid() && Places(path, ptr, structured)
      modifies this
      ensures Ran(old(findings), Hits(ds, path, s), findings, rejected, entropy)
    {
      ghost var before := findings;
      rejected, entropy := -1, false;
      HitsEnds(ds, path, s);
      for i := 0 to |ds|
        invariant Ran(before, Hits(ds[..i], path, s), findings, rejected, entropy)
      {
        HitsStep(ds, i, path, s);
        rejected, entropy := RunDetector(ds[i], ptr, structured, s, rejected, entropy, path, before, Hits(ds[..i], path, s));
      }
    }

    /** scanInto, at the pointer when the text has one. */
    method ScanInto(ds: seq<Detector>, ptr: Slice, structured: bool, s: string, ghost path: PathOf)
      requires ptr.Valid() && Places(path, ptr, structured)
      modifies this
      ensures findings == old(findings) + ScanText(ds, path, s)
    {
      if |s| < MIN_SCAN_LENGTH {
        return;
      }
      ghost var before, hs := findings, Hits(ds, path, s);
      var rejected, entropy := RunDetectors(ds, ptr, structured, s, path);
      if entropy && rejected >= 0 {
        var f := findings[rejected];
        findings := findings[rejected := f.(confidence := if f.confidence + 0.05 < 1.0 then f.confidence + 0.05 else 1.0)];
        assert findings == before + Bumped(hs);
      }
    }

    /** The findings recorded since `before` get their marks. */
    method Mark(before: nat, inKey: bool, hidden: bool)
      requires before <= |findings| && forall i | before <= i < |findings| :: !findings[i].inKey && !findings[i].underKey
      modifies this
      ensures findings == old(findings[..before]) + Marked(old(findings[before..]), inKey, hidden)
    {
      ghost var was := findings;
      if inKey {
        for i := before to |findings|
          invariant |findings| == |was|
          invariant forall j | 0 <= j < |was| :: findings[j] == if before <= j < i then was[j].(inKey := true) else was[j]
        {
          findings := findings[i := findings[i].(inKey := true)];
        }
      }
      ghost var keyed := findings;
      if hidden {
        for i := before to |findings|
          invariant |findings| == |keyed|
          invariant forall j | 0 <= j < |was| :: findings[j] == if before <= j < i then keyed[j].(underKey := true) else keyed[j]
        {
          findings := findings[i := findings[i].(underKey := true)];
        }
      }
    }

    method RejectsNow() returns (b: bool)
      ensures b <==> Rejects(findings)
    {
      for i := 0 to |findings|
        invariant !Rejects(findings[..i])
      {
        if findings[i].reject {
          return true;
        }
      }
      assert findings[..|findings|] == findings;
      return false;
    }
  }

  /** What a hit of the span is reported at. */
  ghost predicate Place(path: PathOf, ptr: Slice, structured: bool, span: (nat, nat))
    reads ptr.arr
    requires ptr.Valid()
  {
    path(span) == if structured then ptr.Text() else SpanText(span)
  }

  ghost predicate Places(path: PathOf, ptr: Slice, structured: bool)
    reads ptr.arr
    requires ptr.Valid()
  {
    forall span :: Place(path, ptr, structured, span)
  }

  /** The findings so far, and what the loop remembers of them. */
  ghost predicate Ran(before: seq<Finding>, hs: seq<Finding>, now: seq<Finding>, rejected: int, entropy: bool) {
    now == before + hs && entropy == HasEntropy(hs) && rejected == IndexAfter(|before|, FirstRejected(hs))
  }

  /** One more finding: a first refusal is remembered, and that entropy matched. */
  lemma {:induction false} RanOne(before: seq<Finding>, hs: seq<Finding>, now: seq<Finding>, rejected: int, entropy: bool, f: Finding)
    requires Ran(before, hs, now, rejected, entropy)
    ensures Ran(before, hs + [f], now + [f], if Refuses(f) && rejected < 0 then |now| else rejected, entropy || f.detector == ENTROPY)
  {
    MoreHits(hs, [f]);
    OneFinding(f);
    assert before + hs + [f] == before + (hs + [f]);
  }

  function IndexAfter(n: nat, r: Option<nat>): int { if r.Some? then n + r.value else -1 }

  lemma {:induction false} HitsEnds(ds: seq<Detector>, path: PathOf, s: string)
    ensures Hits(ds[..0], path, s) == [] && Hits(ds[..|ds|], path, s) == Hits(ds, path, s)
    ensures !HasEntropy([]) && FirstRejected([]) == None
  {
    assert ds[..|ds|] == ds;
  }

  lemma {:induction false} HitsStep(ds: seq<Detector>, i: nat, path: PathOf, s: string)
    requires i < |ds|
    ensures Hits(ds[..i + 1], path, s) == Hits(ds[..i], path, s) + NewFindings(ds[i], path, s)
  {
    assert ds[..i + 1][..i] == ds[..i];
  }

  lemma {:induction false} OneFinding(f: Finding)
    ensures HasEntropy([f]) <==> f.detector == ENTROPY
    ensures FirstRejected([f]) == if Refuses(f) then Some(0) else None
    ensures !HasEntropy([]) && FirstRejected([]) == None
  {
    assert [f][..0] == [];
    assert [f][0] == f;
  }

  /** What more hits change: only a first refusal or a first entropy hit counts. */
  lemma {:induction false} MoreHits(hs: seq<Finding>, more: seq<Finding>)
    requires |more| <= 1
    ensures HasEntropy(hs + more) <==> HasEntropy(hs) || HasEntropy(more)
    ensures FirstRejected(hs + more) == if FirstRejected(hs).Some? then FirstRejected(hs)
                                        else if FirstRejected(more).Some? then Some(|hs|) else None
    ensures FirstRejected(more).Some? ==> FirstRejected(more).value == 0
  {
    if more == [] {
      assert hs + more == hs;
    } else {
      var f := more[0];
      assert more == [f];
      OneFinding(f);
      assert (hs + more)[..|hs|] == hs && (hs + more)[|hs|] == f;
      if HasEntropy(hs) {
        var i :| 0 <= i < |hs| && hs[i].detector == ENTROPY;
        assert (hs + more)[i].detector == ENTROPY;
      }
    }
  }

  // ---- the walk ----------------------------------------------------------------------------------

  /** The walker's parts agree with the detectors and with RFC 6901; each part is opened where it is used. */
  ghost predicate Drives(ds: seq<Detector>, w: Walker) {
    (forall visit :: FoundAs(ds, w, visit)) && (forall s :: QuietAs(ds, w, s)) && Spells(w)
  }

  ghost predicate FoundAs(ds: seq<Detector>, w: Walker, visit: Visit) { w.found(visit) == Found(ds, visit) }

  ghost predicate QuietAs(ds: seq<Detector>, w: Walker, s: string) { w.quiet(s) == Quiet(ds, s) }

  /** The findings of the visits follow the earlier ones, up to the first that rejects. */
  ghost predicate Walked(w: Walker, was: seq<Finding>, visits: seq<Visit>, now: seq<Finding>, on: bool) {
    now == was + Run(w.found, visits) && (on <==> !Rejects(now))
  }

  /** walk: the findings of v at the pointer, in the caller's result; it goes on while nothing rejects. The
      buffer may be written past the caller's slice, and reads the same up to there. */
  method WalkValue(r: Result, ds: seq<Detector>, ghost w: Walker, ptr: Slice, v: Json, hidden: bool) returns (on: bool)
    requires Drives(ds, w) && ptr.Valid() && !Rejects(r.findings)
    modifies r, ptr.arr
    ensures ptr.Text() == old(ptr.Text())
    ensures Walked(w, old(r.findings), Visits(w, old(ptr.Text()), v, hidden), r.findings, on)
    decreases v, 2, 0
  {
    match v
    case Str(s) =>
      on := ScanMarked(r, ds, w, ptr, s, false, hidden);
    case Obj(m) =>
      on := WalkObject(r, ds, w, ptr, v, hidden);
    case Arr(items) =>
      on := WalkArray(r, ds, w, ptr, v, hidden);
    case _ =>
      on := true;
  }

  lemma {:induction false} RunOne(w: Walker, visit: Visit)
    ensures Run(w.found, [visit]) == w.found(visit)
  {
    assert [visit][..0] == [];
    assert Run(w.found, []) == [];
  }

  /** One text, with the marks of its place. */
  method ScanMarked(r: Result, ds: seq<Detector>, ghost w: Walker, ptr: Slice, s: string, inKey: bool, hidden: bool) returns (on: bool)
    requires Drives(ds, w) && ptr.Valid()
    modifies r
    ensures Walked(w, old(r.findings), [Visit(s, ptr.Text(), inKey, hidden)], r.findings, on)
  {
    ghost var visit := Visit(s, ptr.Text(), inKey, hidden);
    assert FoundAs(ds, w, visit);
    RunOne(w, visit);
    AddFound(r, ds, ptr, s, inKey, hidden);
    var rejects := r.RejectsNow();
    on := !rejects;
  }

  method AddFound(r: Result, ds: seq<Detector>, ptr: Slice, s: string, inKey: bool, hidden: bool)
    requires ptr.Valid()
    modifies r
    ensures r.findings == old(r.findings) + Found(ds, Visit(s, ptr.Text(), inKey, hidden))
  {
    ghost var was, path := r.findings, AtPointer(ptr.Text());
    ghost var found := ScanText(ds, path, s);
    var before := |r.findings|;
    PointerPlaces(ptr);
    r.ScanInto(ds, ptr, true, s, path);
    Unmarked(ds, path, s);
    assert r.findings[before..] == found && r.findings[..before] == was;
    r.Mark(before, inKey, hidden);
  }

  lemma {:induction false} PointerPlaces(ptr: Slice)
    requires ptr.Valid()
    ensures Places(AtPointer(ptr.Text()), ptr, true)
  {
    forall span ensures Place(AtPointer(ptr.Text()), ptr, true, span) {}
  }

  lemma {:induction false} Unmarked(ds: seq<Detector>, path: PathOf, s: string)
    ensures forall i | 0 <= i < |ScanText(ds, path, s)| :: !ScanText(ds, path, s)[i].inKey && !ScanText(ds, path, s)[i].underKey
  {
    forall i | 0 <= i < |ScanText(ds, path, s)|
      ensures !ScanText(ds, path, s)[i].inKey && !ScanText(ds, path, s)[i].underKey
    {
      var d := FindingHas(ds, path, s, i);
    }
  }

  lemma Associative(a: seq<Finding>, b: seq<Finding>, c: seq<Finding>)
    ensures a + b + c == a + (b + c)
  {}

  /** Walking on with more visits. */
  lemma {:induction false} WalkedOn(w: Walker, was: seq<Finding>, a: seq<Visit>, mid: seq<Finding>, b: seq<Visit>,
                                    now: seq<Finding>, on: bool)
    requires !Rejects(was) && Walked(w, was, a, mid, true) && Walked(w, mid, b, now, on)
    ensures Walked(w, was, a + b, now, on)
  {
    RejectsAppend(was, Run(w.found, a));
    RunAppend(w.found, a, b);
    Associative(was, Run(w.found, a), Run(w.found, b));
  }

  /** A walk that has stopped ignores more visits. */
  lemma {:induction false} WalkedStop(w: Walker, was: seq<Finding>, a: seq<Visit>, now: seq<Finding>, b: seq<Visit>)
    requires !Rejects(was) && Walked(w, was, a, now, false)
    ensures Walked(w, was, a + b, now, false)
  {
    RejectsAppend(was, Run(w.found, a));
    RunAppend(w.found, a, b);
  }

  lemma {:induction false} WalkedNothing(w: Walker, was: seq<Finding>)
    requires !Rejects(was)
    ensures Walked(w, was, [], was, true)
  {
    assert was + [] == was;
  }

  ghost function KeyVisits(w: Walker, path: string, v: Json, keys: seq<string>, n: nat, hidden: bool): seq<Visit>
    requires v.Obj? && n <= |keys| && forall i | 0 <= i < |keys| :: keys[i] in v.members
  {
    MemberVisits(w, path, v, keys[..n], hidden)
  }

  lemma {:induction false} KeyVisitsEnds(w: Walker, path: string, v: Json, keys: seq<string>, hidden: bool)
    requires v.Obj? && (forall i | 0 <= i < |keys| :: keys[i] in v.members) && keys == SortedKeys(v.members.Keys)
    ensures KeyVisits(w, path, v, keys, 0, hidden) == []
    ensures KeyVisits(w, path, v, keys, |keys|, hidden) == Visits(w, path, v, hidden)
  {
    assert keys[..|keys|] == keys;
  }

  lemma {:induction false} KeyVisitsStep(w: Walker, path: string, v: Json, keys: seq<string>, n: nat, hidden: bool)
    requires v.Obj? && n < |keys| && forall i | 0 <= i < |keys| :: keys[i] in v.members
    ensures KeyVisits(w, path, v, keys, n + 1, hidden)
            == KeyVisits(w, path, v, keys, n, hidden) + MemberVisit(w, path, v, keys[n], hidden)
  {
    assert keys[..n + 1][..n] == keys[..n];
  }

  /** The visits of the first keys are a prefix of those of all. */
  lemma {:induction false} KeyVisitsPrefix(w: Walker, path: string, v: Json, keys: seq<string>, n: nat, hidden: bool)
    returns (rest: seq<Visit>)
    requires v.Obj? && n <= |keys| && forall i | 0 <= i < |keys| :: keys[i] in v.members
    ensures KeyVisits(w, path, v, keys, |keys|, hidden) == KeyVisits(w, path, v, keys, n, hidden) + rest
    decreases |keys| - n
  {
    rest := [];
    if n < |keys| {
      var more := KeyVisitsPrefix(w, path, v, keys, n + 1, hidden);
      KeyVisitsStep(w, path, v, keys, n, hidden);
      rest := MemberVisit(w, path, v, keys[n], hidden) + more;
    }
  }

  /** The members of an object, in key order. */
  method WalkObject(r: Result, ds: seq<Detector>, ghost w: Walker, ptr: Slice, v: Json, hidden: bool) returns (on: bool)
    requires Drives(ds, w) && v.Obj? && ptr.Valid() && !Rejects(r.findings)
    modifies r, ptr.arr
    ensures ptr.Text() == old(ptr.Text())
    ensures Walked(w, old(r.findings), Visits(w, old(ptr.Text()), v, hidden), r.findings, on)
    decreases v, 1, 0
  {
    ghost var path, was := ptr.Text(), r.findings;
    SortedMembers(v.members);
    var keys := CollectKeys(v.members.Keys);
    WalkedNothing(w, was);
    KeyVisitsEnds(w, path, v, keys, hidden);
    for i := 0 to |keys|
      invariant ptr.Text() == path
      invariant Walked(w, was, KeyVisits(w, path, v, keys, i, hidden), r.findings, true)
    {
      on := WalkKeyAt(r, ds, w, ptr, v, keys, i, hidden, was);
      if !on {
        ghost var rest := KeyVisitsPrefix(w, path, v, keys, i + 1, hidden);
        WalkedStop(w, was, KeyVisits(w, path, v, keys, i + 1, hidden), r.findings, rest);
        return;
      }
    }
    on := true;
  }

  method WalkKeyAt(r: Result, ds: seq<Detector>, ghost w: Walker, ptr: Slice, v: Json, keys: seq<string>, i: nat, hidden: bool,
                   ghost was: seq<Finding>)
    returns (on: bool)
    requires Drives(ds, w) && v.Obj? && ptr.Valid() && !Rejects(was)
    requires i < |keys| && forall j | 0 <= j < |keys| :: keys[j] in v.members
    requires Walked(w, was, KeyVisits(w, ptr.Text(), v, keys, i, hidden), r.findings, true)
    modifies r, ptr.arr
    ensures ptr.Text() == old(ptr.Text())
    ensures Walked(w, was, KeyVisits(w, ptr.Text(), v, keys, i + 1, hidden), r.findings, on)
    decreases v, 0, 1
  {
    ghost var mid, path := r.findings, ptr.Text();
    on := WalkKey(r, ds, w, ptr, v, keys[i], hidden);
    KeyVisitsStep(w, path, v, keys, i, hidden);
    WalkedOn(w, was, KeyVisits(w, path, v, keys, i, hidden), mid, MemberVisit(w, path, v, keys[i], hidden), r.findings, on);
  }

  /** One member: its key's text, then its value, under the key unless the key was flagged. */
  method WalkKey(r: Result, ds: seq<Detector>, ghost w: Walker, ptr: Slice, v: Json, k: string, hidden: bool) returns (on: bool)
    requires Drives(ds, w) && v.Obj? && k in v.members && ptr.Valid() && !Rejects(r.findings)
    modifies r, ptr.arr
    ensures ptr.Text() == old(ptr.Text())
    ensures Walked(w, old(r.findings), MemberVisit(w, old(ptr.Text()), v, k, hidden), r.findings, on)
    decreases v, 0, 0
  {
    ghost var path, was := ptr.Text(), r.findings;
    ghost var key := Visit(KeyText(k), path, true, hidden);
    var before := |r.findings|;
    on := ScanMarked(r, ds, w, ptr, KeyText(k), true, hidden);
    ghost var mid := r.findings;
    FlagsWhenFound(ds, w, was, mid, key);
    var childHidden := hidden || |r.findings| > before;
    ghost var below := Visits(w, if childHidden then path else path + w.member(k), v.members[k], childHidden);
    if !on {
      WalkedStop(w, was, [key], mid, below);
      return;
    }
    assert MemberAsToken(w, k);
    on := WalkUnder(r, ds, w, ptr, k, v.members[k], childHidden);
    WalkedOn(w, was, [key], mid, below, r.findings, on);
  }

  /** A key flags what is below it exactly when its text produced a finding. */
  lemma {:induction false} FlagsWhenFound(ds: seq<Detector>, w: Walker, was: seq<Finding>, now: seq<Finding>, key: Visit)
    requires Drives(ds, w) && now == was + Run(w.found, [key])
    ensures |now| > |was| <==> !w.quiet(key.text)
  {
    RunOne(w, key);
    assert FoundAs(ds, w, key) && QuietAs(ds, w, key.text);
    QuietIff(ds, AtPointer(key.path), key.text);
  }

  /** A child under its token, or at the same pointer below a flagged key. */
  method WalkUnder(r: Result, ds: seq<Detector>, ghost w: Walker, ptr: Slice, token: string, v: Json, hidden: bool) returns (on: bool)
    requires Drives(ds, w) && ptr.Valid() && !Rejects(r.findings)
    modifies r, ptr.arr
    ensures ptr.Text() == old(ptr.Text())
    ensures Walked(w, old(r.findings),
                   Visits(w, if hidden then old(ptr.Text()) else old(ptr.Text()) + Token(token), v, hidden), r.findings, on)
    decreases v, 4, 0
  {
    var child := ptr;
    if !hidden {
      child := AppendToken(ptr, token);
      assert |ptr.Text()| <= |child.Text()|;
    }
    on := WalkChild(r, ds, w, ptr, child, v, hidden);
  }

  /** A child's walk leaves the parent's slice alone, in a shared buffer or not. */
  method WalkChild(r: Result, ds: seq<Detector>, ghost w: Walker, ptr: Slice, child: Slice, v: Json, hidden: bool) returns (on: bool)
    requires Drives(ds, w) && ptr.Valid() && child.Valid() && (child.arr == ptr.arr ==> ptr.len <= child.len) && !Rejects(r.findings)
    modifies r, child.arr
    ensures ptr.Text() == old(ptr.Text())
    ensures Walked(w, old(r.findings), Visits(w, old(child.Text()), v, hidden), r.findings, on)
    decreases v, 3, 0
  {
    ghost var was := child.arr[..child.len];
    ghost var text := ptr.arr[..ptr.len];
    assert child.arr == ptr.arr ==> text == was[..ptr.len];
    on := WalkValue(r, ds, w, child, v, hidden);
    assert child.arr == ptr.arr ==> ptr.arr[..ptr.len] == child.arr[..child.len][..ptr.len];
  }

  /** The items of an array, in order. */
  method WalkArray(r: Result, ds: seq<Detector>, ghost w: Walker, ptr: Slice, v: Json, hidden: bool) returns (on: bool)
    requires Drives(ds, w) && v.Arr? && ptr.Valid() && !Rejects(r.findings)
    modifies r, ptr.arr
    ensures ptr.Text() == old(ptr.Text())
    ensures Walked(w, old(r.findings), Visits(w, old(ptr.Text()), v, hidden), r.findings, on)
    decreases v, 1, 0
  {
    ghost var path, was := ptr.Text(), r.findings;
    WalkedNothing(w, was);
    ghost var stages := Stages(w, path, v, hidden);
    for i := 0 to |v.items|
      invariant ptr.Text() == path
      invariant Walked(w, was, stages[i], r.findings, true)
    {
      ghost var own := Visits(w, if hidden then path else path + w.item(i), v.items[i], hidden);
      assert Stage(w, path, v, hidden, stages, i);
      on := WalkItem(r, ds, w, ptr, v.items[i], i, hidden, was, stages[i], own);
      if !on {
        ghost var rest := Remaining(stages, i + 1);
        WalkedStop(w, was, stages[i] + own, r.findings, rest);
        return;
      }
    }
    on := true;
  }

  /** The visits of the first i items are followed by those of item i. */
  ghost predicate Stage(w: Walker, path: string, v: Json, hidden: bool, stages: seq<seq<Visit>>, i: nat)
    requires v.Arr? && i < |v.items| && i < |stages| - 1
  {
    stages[i + 1] == stages[i] + Visits(w, if hidden then path else path + w.item(i), v.items[i], hidden)
  }

  /** The visits of the first items, for each number of them. */
  lemma {:induction false} Stages(w: Walker, path: string, v: Json, hidden: bool) returns (stages: seq<seq<Visit>>)
    requires v.Arr?
    ensures |stages| == |v.items| + 1 && stages[0] == [] && stages[|v.items|] == Visits(w, path, v, hidden)
    ensures forall i: nat | i < |v.items| :: Stage(w, path, v, hidden, stages, i)
    ensures forall i: nat | i < |v.items| :: Grows(stages, i)
  {
    stages := StagesTo(w, path, v, |v.items|, hidden);
  }

  predicate Grows(stages: seq<seq<Visit>>, i: nat)
    requires i < |stages| - 1
  {
    stages[i] <= stages[i + 1]
  }

  lemma {:induction false} StagesTo(w: Walker, path: string, v: Json, n: nat, hidden: bool) returns (stages: seq<seq<Visit>>)
    requires v.Arr? && n <= |v.items|
    ensures |stages| == n + 1 && stages[0] == [] && stages[n] == ItemVisits(w, path, v, n, hidden)
    ensures forall i: nat | i < n :: Stage(w, path, v, hidden, stages, i) && Grows(stages, i)
  {
    if n == 0 {
      stages := [[]];
    } else {
      var before := StagesTo(w, path, v, n - 1, hidden);
      var front, own := ItemVisitsStep(w, path, v, n, hidden);
      stages := OneMore(w, path, v, hidden, before, own);
    }
  }

  lemma {:induction false} OneMore(w: Walker, path: string, v: Json, hidden: bool, before: seq<seq<Visit>>, own: seq<Visit>)
    returns (stages: seq<seq<Visit>>)
    requires v.Arr? && 0 < |before| <= |v.items|
    requires own == Visits(w, if hidden then path else path + w.item(|before| - 1), v.items[|before| - 1], hidden)
    requires forall i: nat | i < |before| - 1 :: Stage(w, path, v, hidden, before, i) && Grows(before, i)
    ensures |stages| == |before| + 1 && stages[0] == before[0] && stages[|before|] == before[|before| - 1] + own
    ensures forall i: nat | i < |before| :: Stage(w, path, v, hidden, stages, i) && Grows(stages, i)
  {
    stages := before + [before[|before| - 1] + own];
    forall i: nat | i < |before| ensures Stage(w, path, v, hidden, stages, i) && Grows(stages, i) {
      assert i < |before| - 1 ==> Stage(w, path, v, hidden, before, i) && Grows(before, i);
    }
  }

  /** What the last stage has beyond another. */
  lemma {:induction false} Remaining(stages: seq<seq<Visit>>, i: nat) returns (rest: seq<Visit>)
    requires i < |stages| && forall j: nat | j < |stages| - 1 :: Grows(stages, j)
    ensures stages[|stages| - 1] == stages[i] + rest
    decreases |stages| - i
  {
    rest := [];
    if i < |stages| - 1 {
      assert Grows(stages, i);
      var later := Remaining(stages, i + 1);
      rest := stages[i + 1][|stages[i]|..] + later;
    }
  }

  /** One item, under its index, after the visits in front of it. */
  method WalkItem(r: Result, ds: seq<Detector>, ghost w: Walker, ptr: Slice, item: Json, i: nat, hidden: bool,
                  ghost was: seq<Finding>, ghost front: seq<Visit>, ghost own: seq<Visit>)
    returns (on: bool)
    requires Drives(ds, w) && ptr.Valid() && !Rejects(was) && Walked(w, was, front, r.findings, true)
    requires own == Visits(w, if hidden then ptr.Text() else ptr.Text() + w.item(i), item, hidden)
    modifies r, ptr.arr
    ensures ptr.Text() == old(ptr.Text())
    ensures Walked(w, was, front + own, r.findings, on)
    decreases item, 5, 0
  {
    ghost var mid := r.findings;
    assert ItemAsToken(w, i);
    on := WalkUnder(r, ds, w, ptr, Itoa(i), item, hidden);
    WalkedOn(w, was, front, mid, own, r.findings, on);
  }

  lemma {:induction false} WalkerDrives(ds: seq<Detector>)
    ensures Drives(ds, WalkerOf(ds))
  {
    WalkerSpells(ds);
    forall visit ensures FoundAs(ds, WalkerOf(ds), visit) {}
    forall s ensures QuietAs(ds, WalkerOf(ds), s) {}
  }

  /** ScanDocument: the findings are those of the walk from the root, and the document is refused exactly
      when somewhere in it a string is caught, or what a key holds behind its extension prefix. */
  method ScanDocument(ds: seq<Detector>, doc: Json) returns (r: Result)
    ensures fresh(r) && r.findings == Report(WalkerOf(ds), doc)
    ensures Rejects(r.findings) <==> exists p :: CaughtAt(ds, doc, p)
  {
    r := new Result();
    var buffer := new char[64];
    var ptr := Slice(buffer, 0);
    assert ptr.Text() == "";
    ghost var w := WalkerOf(ds);
    WalkerDrives(ds);
    RefusedIffCaught(ds, w, doc);
    var on := WalkValue(r, ds, w, ptr, doc, false);
    assert [] + Report(w, doc) == Report(w, doc);
  }

  /** Scan: a text without a path is reported by byte span, and refused exactly when a detector rejects it. */
  method Scan(ds: seq<Detector>, text: string) returns (r: Result)
    ensures fresh(r) && r.findings == ScanText(ds, AtSpan(), text)
    ensures Rejects(r.findings) <==> Caught(ds, text)
  {
    r := new Result();
    var none := new char[0];
    var ptr := Slice(none, 0);
    forall span ensures Place(AtSpan(), ptr, false, span) {}
    TextRejects(ds, AtSpan(), text);
    CaughtIsRefused(ds, text);
    r.ScanInto(ds, ptr, false, text, AtSpan());
  }

  /** Err: the first rejecting finding and how many more there are, or nothing when none rejects. */
  method Err(r: Result) returns (first: Option<Finding>, more: nat)
    ensures first.None? <==> !Rejects(r.findings)
    ensures first.Some? ==> exists i :: 0 <= i < |r.findings| && r.findings[i] == first.value && first.value.reject
                                        && more == Rejecting(r.findings[i + 1..]) && Rejecting(r.findings[..i]) == 0
  {
    first, more := None, 0;
    ghost var at := 0;
    for i := 0 to |r.findings|
      invariant first.None? ==> Rejecting(r.findings[..i]) == 0 && more == 0
      invariant first.Some? ==> at < i && r.findings[at] == first.value && first.value.reject
                                && Rejecting(r.findings[..at]) == 0 && more == Rejecting(r.findings[at + 1..i])
    {
      RejectingStep(r.findings, 0, i);
      if first.Some? {
        RejectingStep(r.findings, at + 1, i);
      }
      if r.findings[i].reject {
        if first.None? {
          first, at := Some(r.findings[i]), i;
          assert r.findings[at + 1..i + 1] == [];
        } else {
          more := more + 1;
        }
      }
    }
    NoneRejecting(r.findings);
    assert r.findings[..|r.findings|] == r.findings;
    assert first.Some? ==> r.findings[at + 1..|r.findings|] == r.findings[at + 1..];
  }

  function Rejecting(fs: seq<Finding>): nat {
    if fs == [] then 0 else Rejecting(fs[..|fs| - 1]) + if fs[|fs| - 1].reject then 1 else 0
  }

  lemma {:induction false} RejectingStep(fs: seq<Finding>, a: nat, i: nat)
    requires a <= i < |fs|
    ensures Rejecting(fs[a..i + 1]) == Rejecting(fs[a..i]) + if fs[i].reject then 1 else 0
    ensures a == 0 ==> fs[a..i + 1] == fs[..i + 1] && fs[a..i] == fs[..i]
  {
    var part := fs[a..i + 1];
    assert part[..|part| - 1] == fs[a..i] && part[|part| - 1] == fs[i];
  }

  lemma {:induction false} NoneRejecting(fs: seq<Finding>)
    ensures Rejecting(fs) == 0 <==> !Rejects(fs)
  {
    if fs != [] {
      NoneRejecting(fs[..|fs| - 1]);
      assert fs == fs[..|fs| - 1] + [fs[|fs| - 1]];
      RejectsAppend(fs[..|fs| - 1], [fs[|fs| - 1]]);
      assert Rejects([fs[|fs| - 1]]) <==> [fs[|fs| - 1]][0].reject;
    }
  }
}
