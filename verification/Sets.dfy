/** Cardinality facts about finite sets. */
module Sets {
  lemma {:induction false} SubsetSize<T>(a: set<T>, b: set<T>)
    requires a <= b
    ensures |a| <= |b|
    ensures |a| == |b| ==> a == b
    decreases a
  {
    if a != {} {
      var x :| x in a;
      SubsetSize(a - {x}, b - {x});
    }
  }

  /** A set all of whose elements are images of the indices below n has at most n elements. */
  lemma {:induction false} ImageSize<T>(s: set<T>, items: seq<T>)
    requires forall x | x in s :: x in items
    ensures |s| <= |items|
    decreases |items|
  {
    if items != [] {
      var last := items[|items| - 1];
      var rest := items[..|items| - 1];
      assert items == rest + [last];
      ImageSize(s - {last}, rest);
      SubsetSize(s, (s - {last}) + {last});
    } else {
      SubsetSize(s, {});
    }
  }
}
