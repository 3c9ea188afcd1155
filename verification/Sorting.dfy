/** sort.Strings, and the sorted keys of an object. */
module Sorting {
  import opened Text

  predicate Sorted(s: seq<string>) {
    forall i, j | 0 <= i < j < |s| :: !Before(s[j], s[i])
  }

  lemma {:induction false} NotBeforeTransitive(a: string, b: string, c: string)
    requires !Before(b, a) && !Before(c, b)
    ensures !Before(c, a)
  {
    BeforeTotal(a, b);
    BeforeTotal(b, c);
    BeforeTotal(a, c);
    if Before(c, a) && Before(a, b) {
      BeforeTransitive(c, a, b);
    }
  }

  function Insert(s: seq<string>, x: string): (r: seq<string>)
    requires Sorted(s)
    ensures Sorted(r) && multiset(r) == multiset(s) + multiset{x}
  {
    if s == [] then [x]
    else if !Before(x, s[|s| - 1]) then
      (InsertAtEnd(s, x);
       s + [x])
    else
      (BeforeTotal(x, s[|s| - 1]);
       var rest := Insert(s[..|s| - 1], x);
       assert s == s[..|s| - 1] + [s[|s| - 1]];
       InsertBelow(s, x, rest);
       rest + [s[|s| - 1]])
  }

  lemma {:induction false} InsertAtEnd(s: seq<string>, x: string)
    requires s != [] && Sorted(s) && !Before(x, s[|s| - 1])
    ensures forall i | 0 <= i < |s| :: !Before(x, s[i])
  {
    forall i | 0 <= i < |s| - 1 ensures !Before(x, s[i]) {
      NotBeforeTransitive(s[i], s[|s| - 1], x);
    }
  }

  lemma {:induction false} InsertBelow(s: seq<string>, x: string, rest: seq<string>)
    requires s != [] && Sorted(s) && !Before(s[|s| - 1], x)
    requires multiset(rest) == multiset(s[..|s| - 1]) + multiset{x}
    ensures forall i | 0 <= i < |rest| :: !Before(s[|s| - 1], rest[i])
  {
    forall i | 0 <= i < |rest| ensures !Before(s[|s| - 1], rest[i]) {
      assert rest[i] in multiset(rest);
      if rest[i] != x {
        assert rest[i] in multiset(s[..|s| - 1]);
      }
    }
  }

  function SortStrings(s: seq<string>): (r: seq<string>)
    ensures Sorted(r) && multiset(r) == multiset(s)
  {
    if s == [] then []
    else
      (assert s == s[..|s| - 1] + [s[|s| - 1]];
       Insert(SortStrings(s[..|s| - 1]), s[|s| - 1]))
  }

  lemma {:induction false} LeastFirst(a: seq<string>, b: seq<string>)
    requires Sorted(a) && Sorted(b) && multiset(a) == multiset(b) && a != [] && b != []
    ensures a[0] == b[0]
  {
    assert a[0] in multiset(b) && b[0] in multiset(a);
    var i :| 0 <= i < |a| && a[i] == b[0];
    var j :| 0 <= j < |b| && b[j] == a[0];
    BeforeTotal(a[0], b[0]);
    assert i > 0 ==> !Before(a[i], a[0]);
    assert j > 0 ==> !Before(b[j], b[0]);
  }

  /** Sorting has one result: two sorted sequences of the same strings are equal. */
  lemma {:induction false} SortedUnique(a: seq<string>, b: seq<string>)
    requires Sorted(a) && Sorted(b) && multiset(a) == multiset(b)
    ensures a == b
  {
    assert |multiset(a)| == |a| && |multiset(b)| == |b|;
    if a != [] {
      LeastFirst(a, b);
      assert a == [a[0]] + a[1..] && b == [b[0]] + b[1..];
      assert multiset(a[1..]) == multiset(a) - multiset{a[0]};
      assert multiset(b[1..]) == multiset(b) - multiset{b[0]};
      SortedUnique(a[1..], b[1..]);
    }
  }

  /** The strings of a set, in no particular order. */
  ghost function Listed(s: set<string>): (l: seq<string>)
    ensures multiset(l) == multiset(s)
  {
    if s == {} then []
    else
      var x :| x in s;
      assert s == (s - {x}) + {x};
      [x] + Listed(s - {x})
  }

  /** The keys of an object in sorted order. */
  ghost function SortedKeys(s: set<string>): (ks: seq<string>)
    ensures Sorted(ks) && multiset(ks) == multiset(s)
  {
    SortStrings(Listed(s))
  }

  lemma {:induction false} SortedKeysAreKeys(s: set<string>, k: string)
    ensures k in SortedKeys(s) <==> k in s
  {
    assert k in SortedKeys(s) <==> k in multiset(SortedKeys(s));
  }

  /** Collecting the keys in any order and sorting them. */
  method CollectKeys(s: set<string>) returns (keys: seq<string>)
    ensures keys == SortedKeys(s)
  {
    keys := [];
    var rest := s;
    while rest != {}
      invariant rest <= s && multiset(keys) + multiset(rest) == multiset(s)
    {
      var k :| k in rest;
      assert rest == (rest - {k}) + {k};
      keys := keys + [k];
      rest := rest - {k};
    }
    SortedUnique(SortStrings(keys), SortedKeys(s));
    keys := SortStrings(keys);
  }
}
