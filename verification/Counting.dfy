/** Sizes of sets that differ in one element. */
module Counting {
  lemma SizeWithout<T>(a: set<T>, e: T)
    ensures |a| == |a - {e}| + if e in a then 1 else 0
  {
    if e in a { assert a == (a - {e}) + {e}; } else { assert a == a - {e}; }
  }

  lemma SameWithout<T(!new)>(a: set<T>, b: set<T>, e: T)
    requires forall x :: x != e ==> (x in a <==> x in b)
    ensures a - {e} == b - {e}
  {
  }
}
