/** Stable sorting, as the verifiers and the ingest use it. */
module Sorting {
  ghost predicate TotalOrder<T(!new)>(le: (T, T) -> bool)
  {
    && (forall a, b :: le(a, b) || le(b, a))
    && (forall a, b, c :: le(a, b) && le(b, c) ==> le(a, c))
  }

  lemma Total<T(!new)>(le: (T, T) -> bool, a: T, b: T)
    requires TotalOrder(le)
    ensures le(a, b) || le(b, a)
  {
  }

  lemma Transitive<T(!new)>(le: (T, T) -> bool, a: T, b: T, c: T)
    requires TotalOrder(le) && le(a, b) && le(b, c)
    ensures le(a, c)
  {
  }

  predicate Sorted<T>(le: (T, T) -> bool, s: seq<T>)
  {
    forall i, j | 0 <= i < j < |s| :: le(s[i], s[j])
  }

  /** Behind everything it does not precede. */
  function Insert<T>(le: (T, T) -> bool, s: seq<T>, x: T): seq<T>
  {
    if s == [] then [x]
    else if le(s[|s| - 1], x) then s + [x]
    else Insert(le, s[..|s| - 1], x) + [s[|s| - 1]]
  }

  function Sort<T>(le: (T, T) -> bool, s: seq<T>): seq<T>
  {
    if s == [] then [] else Insert(le, Sort(le, s[..|s| - 1]), s[|s| - 1])
  }

  lemma {:induction false} InsertHolds<T(!new)>(le: (T, T) -> bool, s: seq<T>, x: T)
    ensures multiset(Insert(le, s, x)) == multiset(s) + multiset{x}
    ensures forall y :: y in Insert(le, s, x) <==> y in s || y == x
  {
    if s != [] && !le(s[|s| - 1], x) {
      InsertHolds(le, s[..|s| - 1], x);
      assert s == s[..|s| - 1] + [s[|s| - 1]];
    }
  }

  lemma {:induction false} InsertSorts<T(!new)>(le: (T, T) -> bool, s: seq<T>, x: T)
    requires TotalOrder(le) && Sorted(le, s)
    ensures Sorted(le, Insert(le, s, x))
  {
    hide TotalOrder;
    if s == [] {
      return;
    }
    var last := s[|s| - 1];
    if le(last, x) {
      forall i | 0 <= i < |s| - 1 ensures le(s[i], x) {
        Transitive(le, s[i], last, x);
      }
    } else {
      Total(le, last, x);
      InsertSorts(le, s[..|s| - 1], x);
      InsertHolds(le, s[..|s| - 1], x);
      var t := Insert(le, s[..|s| - 1], x);
      forall i | 0 <= i < |t| ensures le(t[i], last) {
        assert t[i] in t;
      }
    }
  }

  /** The result is in order and holds what was given. */
  lemma {:induction false} SortSorts<T(!new)>(le: (T, T) -> bool, s: seq<T>)
    requires TotalOrder(le)
    ensures Sorted(le, Sort(le, s)) && multiset(Sort(le, s)) == multiset(s)
  {
    hide TotalOrder, Sorted, Insert;
    if s == [] {
      SortedEmpty(le);
    } else {
      var front, last := s[..|s| - 1], s[|s| - 1];
      SortSorts(le, front);
      InsertSorts(le, Sort(le, front), last);
      InsertHolds(le, Sort(le, front), last);
      assert s == front + [last];
    }
  }

  lemma SortedEmpty<T>(le: (T, T) -> bool)
    ensures Sorted(le, [])
  {
  }

  lemma SameElements<T>(s: seq<T>, t: seq<T>)
    requires multiset(s) == multiset(t)
    ensures |s| == |t| && forall x :: x in s <==> x in t
  {
    assert |multiset(s)| == |s| && |multiset(t)| == |t|;
    forall x ensures x in s <==> x in t {
      assert x in multiset(s) <==> x in multiset(t);
    }
  }

  /** Any two elements, in whatever order, are as `ok` says. */
  predicate Pairwise<T>(ok: (T, T) -> bool, s: seq<T>)
  {
    forall i, j | 0 <= i < j < |s| :: ok(s[i], s[j]) && ok(s[j], s[i])
  }

  lemma LastPair<T(!new)>(ok: (T, T) -> bool, s: seq<T>, y: T)
    requires s != [] && Pairwise(ok, s) && y in s[..|s| - 1]
    ensures ok(y, s[|s| - 1]) && ok(s[|s| - 1], y)
  {
    var k :| 0 <= k < |s| - 1 && s[..|s| - 1][k] == y;
    assert ok(s[k], s[|s| - 1]);
  }

  lemma {:induction false} InsertKeepsPairwise<T(!new)>(le: (T, T) -> bool, ok: (T, T) -> bool, s: seq<T>, x: T)
    requires Pairwise(ok, s) && forall y | y in s :: ok(x, y) && ok(y, x)
    ensures Pairwise(ok, Insert(le, s, x))
  {
    if s != [] && !le(s[|s| - 1], x) {
      var front, last := s[..|s| - 1], s[|s| - 1];
      assert last in s;
      InsertKeepsPairwise(le, ok, front, x);
      InsertHolds(le, front, x);
      var t := Insert(le, front, x);
      forall i | 0 <= i < |t| ensures ok(t[i], last) && ok(last, t[i]) {
        assert t[i] in t;
        if t[i] != x {
          LastPair(ok, s, t[i]);
        }
      }
    }
  }

  lemma {:induction false} SortKeepsPairwise<T(!new)>(le: (T, T) -> bool, ok: (T, T) -> bool, s: seq<T>)
    requires Pairwise(ok, s)
    ensures Pairwise(ok, Sort(le, s)) && forall x :: x in Sort(le, s) <==> x in s
  {
    if s != [] {
      var front, last := s[..|s| - 1], s[|s| - 1];
      SortKeepsPairwise(le, ok, front);
      assert s == front + [last];
      forall y | y in Sort(le, front) ensures ok(last, y) && ok(y, last) {
        LastPair(ok, s, y);
      }
      InsertKeepsPairwise(le, ok, Sort(le, front), last);
      InsertHolds(le, Sort(le, front), last);
    }
  }
}
