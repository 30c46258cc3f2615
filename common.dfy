/** The optional value used where the Java code may hand back nothing. */
module Wrappers {
  datatype Option<+T> = None | Some(value: T)
}

/**
 * Listings of the keys of a finite map. A Java `HashMap` hands out its
 * entries in an unspecified order, each exactly once; `Enumerates(s, keys)`
 * says that the sequence `s` is such an order for the key set `keys`.
 */
module Enumeration {
  predicate Distinct<T(==)>(s: seq<T>) {
    forall i, j | 0 <= i < j < |s| :: s[i] != s[j]
  }

  predicate Enumerates<T(==)>(s: seq<T>, keys: set<T>) {
    Distinct(s) && (forall k | k in s :: k in keys) && (forall k | k in keys :: k in s)
  }

  /** Two lists without repeats and without a shared element concatenate to a list without repeats. */
  lemma DistinctConcat<T>(a: seq<T>, b: seq<T>)
    requires Distinct(a) && Distinct(b)
    requires forall x | x in a :: x !in b
    ensures Distinct(a + b)
  {
    forall i, j | 0 <= i < j < |a + b| ensures (a + b)[i] != (a + b)[j] {
      if i < |a| && j >= |a| {
        assert (a + b)[i] in a && (a + b)[j] in b;
      }
    }
  }

  /** An enumeration of a key set has exactly as many elements as the set. */
  lemma {:induction false} EnumerationLength<T>(s: seq<T>, keys: set<T>)
    requires Enumerates(s, keys)
    ensures |s| == |keys|
    decreases |s|
  {
    if s != [] {
      var last := s[|s| - 1];
      var init := s[..|s| - 1];
      assert s == init + [last];
      forall k | k in init || k in keys - {last} ensures k in init <==> k in keys - {last} {
        if k in init {
          var i :| 0 <= i < |init| && init[i] == k;
          assert s[i] == k && s[|s| - 1] == last;
        }
        if k in keys - {last} {
          assert k in s;
          var i :| 0 <= i < |s| && s[i] == k;
          assert i != |s| - 1;
          assert init[i] == k;
        }
      }
      EnumerationLength(init, keys - {last});
    }
  }
}
