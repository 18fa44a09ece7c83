/** Sequence helpers: duplicate-freedom and copying a set into a list. */
module Lists {

  /** No element occurs twice. */
  predicate Distinct<T(==)>(s: seq<T>) {
    forall i, j :: 0 <= i < j < |s| ==> s[i] != s[j]
  }

  /** The elements of a sequence, as a set. */
  function Elements<T>(s: seq<T>): set<T> {
    set x | x in s
  }

  /**
   * `new ArrayList<>(set)`: every element of the set once, in the set's
   * (unspecified) iteration order.
   */
  method CopyToList<T(==)>(s: set<T>) returns (list: seq<T>)
    ensures forall x :: x in list <==> x in s
    ensures Distinct(list)
    ensures |list| == |s|
  {
    list := [];
    var rest := s;
    while rest != {}
      invariant rest <= s
      invariant forall x :: x in list <==> x in s && x !in rest
      invariant Distinct(list)
      invariant |list| + |rest| == |s|
      decreases |rest|
    {
      var x :| x in rest;
      list := list + [x];
      rest := rest - {x};
    }
  }
}
