/** What several of the models need. */
module Common {
  /** Every element stands in the list once. */
  ghost predicate NoRepeats<T>(list: seq<T>) {
    forall i, j :: 0 <= i < j < |list| ==> list[i] != list[j]
  }

  lemma OneMore<T>(taken: seq<T>, x: T, rest: seq<T>)
    requires NoRepeats(taken + ([x] + rest))
    ensures x !in taken && taken + ([x] + rest) == (taken + [x]) + rest
  {
    var list := taken + ([x] + rest);
    assert list[|taken|] == x && forall i :: 0 <= i < |taken| ==> list[i] == taken[i];
  }

  lemma PrefixOnce<T>(a: seq<T>, b: seq<T>)
    requires NoRepeats(a + b)
    ensures NoRepeats(a)
  {
    assert forall i :: 0 <= i < |a| ==> (a + b)[i] == a[i];
  }

  lemma MulMonotone(a: int, b: int, c: int)
    ensures a <= b && 0 <= c ==> a * c <= b * c
  {}
}
