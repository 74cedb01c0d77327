/** What Go's joined keys do to the verdict on rows that verify: they break it
    exactly when two sealed rows share a key. */
module JoinedVerdicts {
  import opened Text
  import opened Rows
  import opened Verify
  import opened Copies
  import opened VerifyLaws
  import opened GoVerifier
  import opened IngestSpec

  /** Sealed rows that share a key are copies of one row. */
  predicate SealedApart<K(==)>(key: Row -> K, rows: seq<Row>)
  {
    forall a, b | a in rows && b in rows && a.Sealed() && b.Sealed() && key(a) == key(b) :: SameRow(a, b)
  }

  ghost predicate NoneBroken(check: Row -> bool, kept: set<Row>)
  {
    forall r | r in kept :: !Broken(check, kept, r)
  }

  /** A verdict without checkpoints, taken apart. */
  lemma CleanBy<K>(key: Row -> K, check: Row -> bool, rows: seq<Row>)
    ensures FirstBreakBy(key, check, rows, [], false) == None <==>
      CopyBreaksBy(key, check, rows) == {} && NoneBroken(check, RowSet(KeptBy(key, rows)))
  {
    hide Least, KeptBy, CopyBreaksBy, Broken, RowSet;
    var kept := RowSet(KeptBy(key, rows));
    WholeBreaks(kept, []);
    if NoneBroken(check, kept) {
      assert ChainBreaks(check, kept) == {};
    } else {
      var r :| r in kept && Broken(check, kept, r);
      assert r.seqNo in ChainBreaks(check, kept);
    }
  }

  /** A clean list has only sealed rows that check out. */
  lemma SealedChecks(check: Row -> bool, rows: seq<Row>, b: Row)
    requires FirstBreakBy(RowKey, check, rows, [], false) == None && b in rows && b.Sealed()
    ensures check(b)
  {
    hide FirstBreakBy, KeptBy, CopyBreaksBy;
    CleanBy(RowKey, check, rows);
    var n :| 0 <= n < |rows| && rows[n] == b;
    var k, f := SealedCopyBy(RowKey, check, rows, n);
    assert !Broken(check, RowSet(KeptBy(RowKey, rows)), k);
  }

  lemma {:induction false} KeptCoversBy<K>(key: Row -> K, rows: seq<Row>, b: Row)
    requires b in rows
    ensures exists k :: k in KeptBy(key, rows) && key(k) == key(b)
  {
    hide KeepBy, KeptBy;
    var n := |rows| - 1;
    var front, last := rows[..n], rows[n];
    var kept := KeptBy(key, front);
    KeptLastBy(key, r => true, rows);
    KeptKeysDiffer(key, front);
    KeepByHolds(key, kept, last, last);
    if b in front {
      KeptCoversBy(key, front, b);
      var k :| k in kept && key(k) == key(b);
      KeepByHolds(key, kept, last, k);
      if key(last) == key(k) && last.Sealed() && !k.Sealed() {
        KeyTaken(key, kept, k, last);
      }
    } else {
      assert b == last;
      if !NewKey(key, kept, last) {
        var k :| k in kept && key(k) == key(last) && !(!k.Sealed() && last.Sealed());
        KeepByHolds(key, kept, last, k);
      }
    }
  }

  lemma KeyTaken<K>(key: Row -> K, kept: seq<Row>, k: Row, r: Row)
    requires KeysDiffer(key, kept) && k in kept && key(k) == key(r) && !k.Sealed() && r.Sealed()
    ensures NewKey(key, kept, r)
  {
    var i :| 0 <= i < |kept| && kept[i] == k;
    forall o | o in kept && key(o) == key(r) ensures o == k {
      var j :| 0 <= j < |kept| && kept[j] == o;
    }
  }

  /** Go keeps no other rows than the pair keys do, and all the sealed ones. */
  ghost predicate KeepsSealed(rows: seq<Row>)
  {
    && (forall r | r in KeptBy(JoinedKey, rows) :: r in KeptBy(RowKey, rows))
    && (forall r | r in KeptBy(RowKey, rows) && r.Sealed() :: r in KeptBy(JoinedKey, rows))
  }

  lemma KeepsStep(rows: seq<Row>, r: Row)
    requires rows != [] && SealedApart(JoinedKey, rows) && KeepsSealed(rows[..|rows| - 1])
    ensures r in KeptBy(JoinedKey, rows) ==> r in KeptBy(RowKey, rows)
    ensures r in KeptBy(RowKey, rows) && r.Sealed() ==> r in KeptBy(JoinedKey, rows)
  {
    hide KeptBy, KeepBy, JoinedKey, KeysDiffer;
    var front, x := rows[..|rows| - 1], rows[|rows| - 1];
    var joined, pairs := KeptBy(JoinedKey, front), KeptBy(RowKey, front);
    KeptLastBy(JoinedKey, o => true, rows);
    KeptLastBy(RowKey, o => true, rows);
    KeptKeysDiffer(JoinedKey, front);
    KeptKeysDiffer(RowKey, front);
    KeepByHolds(JoinedKey, joined, x, r);
    KeepByHolds(RowKey, pairs, x, r);
    SameRowsShare(x, r);
    if r == x { NewAlike(rows); }
  }

  lemma SameRowsShare(a: Row, b: Row)
    ensures SameRow(a, b) ==> JoinedKey(a) == JoinedKey(b)
  {
  }

  /** A row is new to both, if it is sealed, and to Go only if it is to both. */
  lemma NewAlike(rows: seq<Row>)
    requires rows != [] && SealedApart(JoinedKey, rows) && KeepsSealed(rows[..|rows| - 1])
    ensures var front, x := rows[..|rows| - 1], rows[|rows| - 1];
      && (NewKey(JoinedKey, KeptBy(JoinedKey, front), x) ==> NewKey(RowKey, KeptBy(RowKey, front), x))
      && (x.Sealed() && NewKey(RowKey, KeptBy(RowKey, front), x) ==> NewKey(JoinedKey, KeptBy(JoinedKey, front), x))
  {
    hide KeptBy, JoinedKey;
    var front, x := rows[..|rows| - 1], rows[|rows| - 1];
    var joined, pairs := KeptBy(JoinedKey, front), KeptBy(RowKey, front);
    KeptByGiven(JoinedKey, front);
    KeptByGiven(RowKey, front);
    if NewKey(JoinedKey, joined, x) {
      forall k | k in pairs && RowKey(k) == RowKey(x) ensures !k.Sealed() && x.Sealed() {
        SameRowsShare(k, x);
        KeptCoversBy(JoinedKey, front, k);
      }
    }
    if x.Sealed() && NewKey(RowKey, pairs, x) {
      forall k | k in joined && JoinedKey(k) == JoinedKey(x) ensures !k.Sealed() {
        assert k.Sealed() ==> SameRow(k, x);
      }
    }
  }

  lemma {:induction false} KeepsAll(rows: seq<Row>)
    requires SealedApart(JoinedKey, rows)
    ensures KeepsSealed(rows)
  {
    hide JoinedKey;
    if rows != [] {
      var front := rows[..|rows| - 1];
      assert forall r | r in front :: r in rows;
      KeepsAll(front);
      forall r
        ensures r in KeptBy(JoinedKey, rows) ==> r in KeptBy(RowKey, rows)
        ensures r in KeptBy(RowKey, rows) && r.Sealed() ==> r in KeptBy(JoinedKey, rows)
      {
        KeepsStep(rows, r);
      }
    }
  }

  /** Go finds no break between copies that the pair keys do not find. */
  lemma {:induction false} FewerCopyBreaks(check: Row -> bool, rows: seq<Row>)
    requires SealedApart(JoinedKey, rows)
    ensures CopyBreaksBy(JoinedKey, check, rows) <= CopyBreaksBy(RowKey, check, rows)
  {
    hide JoinedKey, KeptBy, KeepBy, CopyBreaksBy, IndexBy, KeysDiffer;
    if rows == [] {
      NoBreaks(check);
    } else {
      var front, x := rows[..|rows| - 1], rows[|rows| - 1];
      assert forall r | r in front :: r in rows;
      FewerCopyBreaks(check, front);
      KeepsAll(front);
      KeptLastBy(JoinedKey, check, rows);
      KeptLastBy(RowKey, check, rows);
      KeptKeysDiffer(RowKey, front);
      KeptByGiven(JoinedKey, front);
      var joined := KeptBy(JoinedKey, front);
      var i := IndexBy(JoinedKey, joined, x);
      if i < |joined| && joined[i].Sealed() && x.Sealed() {
        var k := joined[i];
        assert k in joined && SameRow(k, x);
        CopyAtBy(RowKey, KeptBy(RowKey, front), k, x);
      }
    }
  }

  lemma NoBreaks(check: Row -> bool)
    ensures CopyBreaksBy(JoinedKey, check, []) == {}
  {
  }

  /** With unsealed rows taken away that are no break, no other row breaks. */
  lemma FewerBroken(check: Row -> bool, fewer: set<Row>, all: set<Row>, r: Row)
    requires fewer <= all && (forall o | o in all && o.Sealed() :: o in fewer) && r in fewer
    requires NoneBroken(check, all)
    ensures !Broken(check, fewer, r)
  {
    hide Links;
    assert !Broken(check, all, r);
    if r.Sealed() {
      forall p | Precedes(fewer, p, r) ensures Links(p, r) {
        if !Precedes(all, p, r) {
          var q :| q in all && q.node == r.node && p.seqNo < q.seqNo < r.seqNo;
          assert !Broken(check, all, q);
          GapLinks(p, r);
        }
      }
    }
  }

  lemma GapLinks(p: Row, r: Row)
    requires !p.Sealed() && p.seqNo < r.seqNo - 1
    ensures Links(p, r)
  {
  }

  /** Rows without a break: Go finds none either, exactly when no two sealed rows
      but copies of one row share a joined key. */
  lemma CleanVerdictExactly(check: Row -> bool, rows: seq<Row>)
    requires HashFixesPlace(check) && FirstBreak(check, rows, [], false) == None
    ensures FirstBreakBy(JoinedKey, check, rows, [], false) == None <==> SealedApart(JoinedKey, rows)
  {
    hide JoinedKey, KeptBy, CopyBreaksBy, Broken, HashFixesPlace, FirstBreakBy, FirstBreak;
    PairVerdict(check, rows);
    CleanBy(RowKey, check, rows);
    CleanBy(JoinedKey, check, rows);
    if SealedApart(JoinedKey, rows) {
      KeepsAll(rows);
      FewerCopyBreaks(check, rows);
      var fewer, all := RowSet(KeptBy(JoinedKey, rows)), RowSet(KeptBy(RowKey, rows));
      forall r | r in fewer ensures !Broken(check, fewer, r) { FewerBroken(check, fewer, all, r); }
    } else if CopyBreaksBy(JoinedKey, check, rows) == {} {
      forall a, b | a in rows && b in rows && a.Sealed() && b.Sealed() && JoinedKey(a) == JoinedKey(b) ensures SameRow(a, b) {
        SharedIsSame(check, rows, a, b);
      }
    }
  }

  lemma PairVerdict(check: Row -> bool, rows: seq<Row>)
    ensures FirstBreakBy(RowKey, check, rows, [], false) == FirstBreak(check, rows, [], false)
  {
    hide Least;
  }

  lemma SharedIsSame(check: Row -> bool, rows: seq<Row>, a: Row, b: Row)
    requires HashFixesPlace(check) && FirstBreakBy(RowKey, check, rows, [], false) == None
    requires CopyBreaksBy(JoinedKey, check, rows) == {}
    requires a in rows && b in rows && a.Sealed() && b.Sealed() && JoinedKey(a) == JoinedKey(b)
    ensures SameRow(a, b)
  {
    hide JoinedKey, KeptBy, CopyBreaksBy, HashFixesPlace, FirstBreakBy;
    var k := KeptSame(check, rows, a);
    var l := KeptSame(check, rows, b);
    KeptOnceBy(JoinedKey, rows, k, l);
  }

  lemma KeptSame(check: Row -> bool, rows: seq<Row>, a: Row) returns (k: Row)
    requires HashFixesPlace(check) && FirstBreakBy(RowKey, check, rows, [], false) == None
    requires CopyBreaksBy(JoinedKey, check, rows) == {} && a in rows && a.Sealed()
    ensures k in KeptBy(JoinedKey, rows) && JoinedKey(k) == JoinedKey(a) && SameRow(k, a)
  {
    hide JoinedKey, KeptBy, CopyBreaksBy, HashFixesPlace, FirstBreakBy;
    var n :| 0 <= n < |rows| && rows[n] == a;
    var f: nat;
    k, f := SealedCopyBy(JoinedKey, check, rows, n);
    if k != a {
      assert rows[f] in rows;
      SealedChecks(check, rows, k);
      FixedPlace(check, k, a);
    }
  }
}
