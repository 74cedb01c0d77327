/** Keeping one copy per key, whatever the key: which copies those are, and when
    they are the copies of rows. */
module Copies {
  import opened Rows
  import opened Verify

  predicate KeysDiffer<K(==)>(key: Row -> K, kept: seq<Row>)
  {
    forall i, j | 0 <= i < j < |kept| :: key(kept[i]) != key(kept[j])
  }

  lemma {:induction false} KeptKeysDiffer<K>(key: Row -> K, rows: seq<Row>)
    ensures KeysDiffer(key, KeptBy(key, rows))
  {
    if rows != [] { KeptKeysDiffer(key, rows[..|rows| - 1]); }
  }

  /** Copies of one row have one key. */
  ghost predicate CoversCopies<K>(key: Row -> K)
  {
    forall a, b :: SameRow(a, b) ==> key(a) == key(b)
  }

  lemma KeptApart<K>(key: Row -> K, rows: seq<Row>)
    requires CoversCopies(key)
    ensures Distinct(KeptBy(key, rows))
  {
    hide KeptBy;
    KeptKeysDiffer(key, rows);
  }

  /** No two rows share a key but copies of one row. */
  predicate Faithful<K(==)>(key: Row -> K, rows: seq<Row>)
  {
    forall a, b | a in rows && b in rows && key(a) == key(b) :: SameRow(a, b)
  }

  lemma IndexSame<K>(key: Row -> K, rows: seq<Row>, kept: seq<Row>, r: Row)
    requires CoversCopies(key) && Faithful(key, rows) && r in rows && forall k | k in kept :: k in rows
    ensures IndexBy(key, kept, r) == IndexOf(kept, r)
  {
    hide IndexBy, IndexOf;
    var i, j := IndexBy(key, kept, r), IndexOf(kept, r);
    if i < |kept| { assert kept[i] in kept; }
    if j < |kept| { assert kept[j] in kept; }
  }

  /** With faithful keys the copies are those of the rows. */
  lemma {:induction false} FaithfulKept<K>(key: Row -> K, check: Row -> bool, rows: seq<Row>)
    requires CoversCopies(key) && Faithful(key, rows)
    ensures KeptBy(key, rows) == Kept(rows) && CopyBreaksBy(key, check, rows) == CopyBreaks(check, rows)
    ensures forall k | k in Kept(rows) :: k in rows
  {
    hide IndexBy, IndexOf, Kept, CopyBreaks, CoversCopies;
    if rows == [] {
      NoneKept(check);
    } else {
      var front, last := rows[..|rows| - 1], rows[|rows| - 1];
      assert rows == front + [last];
      FaithfulKept(key, check, front);
      KeptLast(rows);
      BreaksLast(check, rows);
      IndexSame(key, rows, Kept(front), last);
      assert IndexOf(Kept(front), last) == IndexBy(RowKey, Kept(front), last) by { IndexIs(Kept(front), last); }
    }
  }

  lemma NoneKept(check: Row -> bool)
    ensures Kept([]) == [] && CopyBreaks(check, []) == {}
  {
  }

  lemma IndexIs(kept: seq<Row>, r: Row)
    ensures IndexOf(kept, r) == IndexBy(RowKey, kept, r)
  {
  }

  lemma FaithfulVerdict<K>(key: Row -> K, check: Row -> bool, rows: seq<Row>, cps: seq<Checkpoint>, partial: bool)
    requires CoversCopies(key) && Faithful(key, rows)
    ensures FirstBreakBy(key, check, rows, cps, partial) == FirstBreak(check, rows, cps, partial)
  {
    hide Least, KeptBy, CopyBreaksBy, Kept, CopyBreaks, ChainBreaks, CheckpointBreaks, CoversCopies, Faithful;
    FaithfulKept(key, check, rows);
  }

  /******* Which copies are kept *******/

  predicate NewKey<K(==)>(key: Row -> K, kept: seq<Row>, r: Row)
  {
    forall k | k in kept :: key(k) == key(r) ==> !k.Sealed() && r.Sealed()
  }

  lemma KeepByHolds<K>(key: Row -> K, kept: seq<Row>, x: Row, r: Row)
    requires KeysDiffer(key, kept)
    ensures r in KeepBy(key, kept, x) <==>
      (r in kept && !(key(x) == key(r) && x.Sealed() && !r.Sealed())) || (r == x && NewKey(key, kept, x))
  {
    hide IndexBy;
    var i := IndexBy(key, kept, x);
    if i < |kept| {
      assert kept[i] in kept;
      assert forall j | 0 <= j < |kept| && j != i :: key(kept[j]) != key(kept[i]);
      if r in kept[i := x] && r != x {
        var j :| 0 <= j < |kept| && kept[i := x][j] == r;
        assert kept[j] == r;
      }
      if r in kept {
        var j :| 0 <= j < |kept| && kept[j] == r;
        assert j != i ==> kept[i := x][j] == r;
      }
      assert kept[i := x][i] == x;
    }
  }

  lemma {:induction false} KeptByGiven<K>(key: Row -> K, rows: seq<Row>)
    ensures forall r | r in KeptBy(key, rows) :: r in rows
  {
    hide KeepBy;
    if rows != [] {
      var n := |rows| - 1;
      KeptByGiven(key, rows[..n]);
      KeptKeysDiffer(key, rows[..n]);
      forall r | r in KeptBy(key, rows) ensures r in rows {
        KeepByHolds(key, KeptBy(key, rows[..n]), rows[n], r);
      }
    }
  }

  lemma KeptOnceBy<K>(key: Row -> K, rows: seq<Row>, a: Row, b: Row)
    requires a in KeptBy(key, rows) && b in KeptBy(key, rows) && key(a) == key(b)
    ensures a == b
  {
    hide KeptBy;
    KeptKeysDiffer(key, rows);
    var kept := KeptBy(key, rows);
    var i :| 0 <= i < |kept| && kept[i] == a;
    var j :| 0 <= j < |kept| && kept[j] == b;
  }

  lemma KeptLastBy<K>(key: Row -> K, check: Row -> bool, rows: seq<Row>)
    requires rows != []
    ensures var front, r := rows[..|rows| - 1], rows[|rows| - 1];
      && KeptBy(key, rows) == KeepBy(key, KeptBy(key, front), r)
      && var b := CopyBreakBy(key, check, KeptBy(key, front), r);
         CopyBreaksBy(key, check, rows) == CopyBreaksBy(key, check, front) + if b.Some? then {b.value} else {}
  {
    hide KeepBy, CopyBreakBy;
  }

  lemma CopyAtBy<K>(key: Row -> K, kept: seq<Row>, k: Row, r: Row)
    requires KeysDiffer(key, kept) && k in kept && key(k) == key(r)
    ensures IndexBy(key, kept, r) < |kept| && kept[IndexBy(key, kept, r)] == k
  {
    hide IndexBy;
    var j :| 0 <= j < |kept| && kept[j] == k;
    assert IndexBy(key, kept, r) <= j;
  }

  /** The kept copy of a sealed row is sealed, not later in the list, and the
      same row, or has its hash, or the two are a break. */
  lemma {:induction false} SealedCopyBy<K>(key: Row -> K, check: Row -> bool, rows: seq<Row>, n: nat) returns (k: Row, f: nat)
    requires n < |rows| && rows[n].Sealed()
    ensures f <= n && rows[f] == k && k in KeptBy(key, rows) && k.Sealed() && key(k) == key(rows[n])
    ensures k == rows[n] || (k.hash == rows[n].hash && check(rows[n])) || LowerSeq(rows[n], k) in CopyBreaksBy(key, check, rows)
  {
    hide KeepBy, IndexBy, KeysDiffer, KeptBy, CopyBreaksBy;
    KeptLastBy(key, check, rows);
    var m := |rows| - 1;
    var front, last := rows[..m], rows[m];
    var kept := KeptBy(key, front);
    KeptKeysDiffer(key, front);
    if n < m {
      k, f := SealedCopyBy(key, check, front, n);
      KeepByHolds(key, kept, last, k);
    } else if NewKey(key, kept, last) {
      k, f := last, n;
      KeepByHolds(key, kept, last, last);
    } else {
      k :| k in kept && key(k) == key(last) && !(!k.Sealed() && last.Sealed());
      KeptByGiven(key, front);
      f :| 0 <= f < |front| && front[f] == k;
      KeepByHolds(key, kept, last, k);
      CopyAtBy(key, kept, k, last);
    }
  }
}
