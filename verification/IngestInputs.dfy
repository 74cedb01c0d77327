/** Batches that show where an ingest falls short: a row at seq 0 that is taken
    though it does not link, a break at seq 0 that is not reported, and second
    deliveries that report or store something else than the first. */
module IngestInputs {
  import opened Text
  import opened Rows
  import opened RowLaws
  import opened Sorting
  import opened Verify
  import opened Copies
  import opened VerifyLaws
  import opened Walk
  import opened GoVerifier
  import opened JoinedKeys
  import opened Store
  import opened IngestSpec
  import opened IngestLaws

  /******* Batches of one node, in order *******/

  lemma {:induction false} InOrderStays(rows: seq<Row>)
    requires Sorted(BySeq, rows)
    ensures Sequenced(rows) == rows
  {
    if rows != [] {
      InOrderStays(rows[..|rows| - 1]);
      assert rows == rows[..|rows| - 1] + [rows[|rows| - 1]];
    }
  }

  /** Sealed rows of one node that check out, each linked to the one before. */
  ghost predicate LinkedRun(check: Row -> bool, kept: seq<Row>, node: string)
  {
    && (forall i | 0 <= i < |kept| :: kept[i].node == node && kept[i].Sealed() && check(kept[i]))
    && (forall i, j | 0 <= i < j < |kept| :: kept[i].seqNo < kept[j].seqNo)
    && (forall i | 0 < i < |kept| :: kept[i].prevHash == kept[i - 1].hash)
  }

  lemma RunIntact(check: Row -> bool, kept: seq<Row>, node: string, i: nat)
    requires LinkedRun(check, kept, node) && i < |kept|
    ensures !Broken(check, RowSet(kept), kept[i])
  {
    var all, r := RowSet(kept), kept[i];
    forall o | o in all && o.seqNo == r.seqNo ensures o == r {
      var j :| 0 <= j < |kept| && kept[j] == o;
    }
    forall p | Precedes(all, p, r) ensures Links(p, r) {
      var j :| 0 <= j < |kept| && kept[j] == p;
      assert kept[i - 1] in all;
      assert j == i - 1;
    }
  }

  /** A batch whose kept copies are such a run has no break. */
  lemma RunVerifies(check: Row -> bool, rows: seq<Row>, kept: seq<Row>, node: string)
    requires Sorted(BySeq, rows) && (forall r | r in rows :: r.node == node) && LinkedRun(check, kept, node)
    requires Kept(rows) == kept && CopyBreaks(check, rows) == {}
    ensures BatchCut(check, rows) == None
  {
    hide Kept, Least, CopyBreaks, LinkedRun, JoinedKey, Sorted, Faithful, CoversCopies, Broken;
    InOrderStays(rows);
    JoinedCovers();
    OneNodeFaithful(rows, node);
    FaithfulVerdict(JoinedKey, check, rows, [], false);
    forall r | r in RowSet(kept) ensures !Broken(check, RowSet(kept), r) {
      var i: nat :| i < |kept| && kept[i] == r;
      RunIntact(check, kept, node, i);
    }
    assert ChainBreaks(check, RowSet(kept)) == {};
    WholeBreaks(RowSet(kept), []);
  }

  lemma UnbrokenPrefix(check: Row -> bool, rows: seq<Row>)
    requires Sorted(BySeq, rows) && BatchCut(check, rows) == None
    requires forall i, j | 0 <= i < j < |rows| && rows[i].Sealed() && rows[j].Sealed() :: rows[i].id != rows[j].id
    ensures Prefix(check, rows) == set r | r in rows && r.Sealed()
  {
    hide BatchCut, Sequenced, Sorted;
    InOrderStays(rows);
    forall r | r in rows && r.Sealed() ensures r in Prefix(check, rows) {
      var n: nat :| n < |rows| && rows[n] == r;
      assert FirstWithKey(rows, n, r);
      assert IsFirst(rows, |rows|, r);
    }
    forall r | r in Prefix(check, rows) ensures r in rows && r.Sealed() { PrefixGiven(check, rows, r); }
  }

  lemma NoDispute(check: Row -> bool, t: Table, rows: seq<Row>)
    requires forall r | r in Prefix(check, rows) :: !IdTaken(Prefix(check, rows), r) && !Clashes(t, r)
    requires forall x | x in Skipped(check, rows) :: !StoredBelow(t, x)
    ensures Disputed(check, t, rows) == {}
  {
    hide Prefix, Skipped, Clashes, IdTaken, StoredBelow;
  }

  /******* A row at seq 0 *******/

  lemma LoneBatch(check: Row -> bool, r: Row)
    requires r.Sealed()
    ensures BatchCut(check, [r]) == if check(r) then None else Some(r.seqNo)
    ensures check(r) ==> Prefix(check, [r]) == {r}
    ensures !check(r) ==> Prefix(check, [r]) == {}
    ensures Skipped(check, [r]) == {}
  {
    hide FirstBreak, FirstBreakBy, JoinedKey, CoversCopies;
    InOrderStays([r]);
    JoinedCovers();
    OneNodeFaithful([r], r.node);
    FaithfulVerdict(JoinedKey, check, [r], [], false);
    LoneVerdict(check, r);
    if check(r) {
      UnbrokenPrefix(check, [r]);
    } else {
      forall o | o in Prefix(check, [r]) ensures false { PrefixGiven(check, [r], o); }
    }
  }

  lemma ZeroClash(check: Row -> bool, n: Row, r: Row)
    requires r.Sealed() && n.id != r.id && n.node == r.node && n.seqNo == r.seqNo + 1 && n.Sealed() && n.prevHash != r.hash
    ensures Clashes(map[n.id := n], r) && LinkClash(map[n.id := n], r)
  {
    var t: Table := map[n.id := n];
    assert t[n.id] in t.Values;
    assert At(t, n, r.node, r.seqNo + 1);
  }

  /** A row at seq 0 in front of a stored row that does not link to it: the
      conflict reads as none, the row is stored, nothing is reported, and the
      store is no longer linked. */
  lemma SeqZeroUnlinks(check: Row -> bool, n: Row, r: Row)
    requires check(n) && n.Sealed() && n.seqNo == 1 && n.prevHash == GENESIS
    requires check(r) && r.Sealed() && r.seqNo == 0 && r.hash != GENESIS && r.node == n.node && r.id != n.id
    ensures var t: Table, u: Table := map[n.id := n], map[n.id := n, r.id := AsStored(r)];
      && LinkedStore(check, t) && !LinkedStore(check, u)
      && Overlooked(check, t, [r]) && Ingests(check, t, [r], u, IngestResult(1, 0))
  {
    hide BatchCut, Prefix, Skipped, Clashes, Least, AsStored, LinkedStore, IdTaken, LinkClash, Keyed;
    var t: Table, u: Table := map[n.id := n], map[n.id := n, r.id := AsStored(r)];
    LoneBatch(check, r);
    ZeroClash(check, n, r);
    OneLinked(check, n);
    assert Disputed(check, t, [r]) == {0};
    LeastIs({0}, 0);
    OverlookedTakesAll(check, t, [r]);
    TwoKeyed(n, r);
    OneHeld(t, r);
    ClashUnlinks(check, t, u, {r}, r);
  }

  lemma TwoKeyed(n: Row, r: Row)
    requires r.id != n.id && r.seqNo != n.seqNo
    ensures Keyed(map[n.id := n]) && Keyed(map[n.id := n, r.id := AsStored(r)])
  {
    hide AsStored;
    StoredPlace(r);
  }

  lemma OneHeld(t: Table, r: Row)
    requires r.id !in t
    ensures Holds(t, t[r.id := AsStored(r)], {r}) && Extends(t, t[r.id := AsStored(r)], {r})
  {
    hide AsStored;
    StoredHash(r);
    assert StoredFrom({r}, AsStored(r));
  }

  /** A row at seq 0 that does not check out: nothing is stored, and the report
      says that nothing was rejected. */
  lemma ZeroReportsNothing(check: Row -> bool, t: Table, r: Row)
    requires Keyed(t) && r.Sealed() && r.seqNo == 0 && !check(r) && r.id !in t
    ensures Ingests(check, t, [r], t, IngestResult(0, 0)) && !Stored(t, r)
  {
    hide BatchCut, Prefix, Skipped, Least, Keyed;
    LoneBatch(check, r);
    assert Disputed(check, t, [r]) == {};
  }

  /******* Second deliveries *******/

  lemma ThreeKept(check: Row -> bool, a: Row, x: Row, b: Row)
    requires a.Sealed() && b.Sealed() && !x.Sealed() && SameRow(x, b) && !SameRow(a, b)
    ensures Kept([a, x, b]) == [a, b] && CopyBreaks(check, [a, x, b]) == {}
  {
    assert [a, x, b][..2] == [a, x] && [a, x][..1] == [a] && [a][..0] == [];
    GivenOnce(check, [a, x]);
    assert IndexOf([a, x], b) == 1;
    KeptLast([a, x, b]);
    BreaksLast(check, [a, x, b]);
  }

  lemma CopyBatch(check: Row -> bool, a: Row, b: Row)
    requires a.Sealed() && b.Sealed() && check(a) && check(b) && a.node == b.node && a.id != b.id
    requires a.seqNo < b.seqNo && b.prevHash == a.hash
    ensures var rows := [a, b.(hash := ""), b];
      BatchCut(check, rows) == None && Prefix(check, rows) == {a, b} && Skipped(check, rows) == {b.(hash := "")}
  {
    hide BatchCut, Prefix, Skipped, Kept, CopyBreaks;
    var x := b.(hash := "");
    var rows := [a, x, b];
    ThreeKept(check, a, x, b);
    assert LinkedRun(check, [a, b], a.node);
    RunVerifies(check, rows, [a, b], a.node);
    UnbrokenPrefix(check, rows);
    assert Prefix(check, rows) == {a, b};
    SkippedIs(check, rows, x);
  }

  /** Two linked rows, the second also as the unsealed line that was written
      ahead of it: all of it is stored and nothing reported, and the second
      time a break is. */
  lemma UnsealedCopyReported(check: Row -> bool, a: Row, b: Row)
    requires HashFixesPlace(check) && a.Sealed() && b.Sealed() && check(a) && check(b) && a.node == b.node && a.id != b.id
    requires a.seqNo == 1 && b.seqNo == 2 && b.prevHash == a.hash
    ensures var rows := [a, b.(hash := ""), b];
      var u: Table := map[a.id := AsStored(a), b.id := AsStored(b)];
      && Ingests(check, map[], rows, u, IngestResult(2, 0))
      && Ingests(check, u, rows, u, IngestResult(1, 2))
  {
    hide BatchCut, Prefix, Skipped, Least, AsStored, Disputed, HashFixesPlace, Exposures, Holds, Keyed, Shadowed;
    var x := b.(hash := "");
    var rows, t: Table := [a, x, b], map[];
    var u: Table := map[a.id := AsStored(a), b.id := AsStored(b)];
    CopyBatch(check, a, b);
    EmptyFits(check, rows, {a, b}, x);
    PairHeld(a, b);
    assert Accepted(check, t, rows) == {a, b};
    assert Ingests(check, t, rows, u, IngestResult(2, 0));
    assert Shadowed({a, b}, x) by { IsShadowed({a, b}, a, x); }
    ExposedAt(check, t, rows, x);
    assert LinkedStore(check, t) by { NothingLinked(check); }
    SecondDispute(check, t, rows, u, IngestResult(2, 0));
    assert Accepted(check, u, rows) == {a};
    HeldAlready(u, {a});
  }

  lemma IsShadowed(accepted: set<Row>, s: Row, x: Row)
    requires s in accepted && s.node == x.node && s.seqNo < x.seqNo
    ensures Shadowed(accepted, x)
  {
  }

  lemma NothingLinked(check: Row -> bool)
    ensures LinkedStore(check, map[])
  {
  }

  lemma SkippedIs(check: Row -> bool, rows: seq<Row>, x: Row)
    requires BatchCut(check, rows) == None && x in rows && !x.Sealed() && forall r | r in rows && !r.Sealed() :: r == x
    ensures Skipped(check, rows) == {x}
  {
    hide BatchCut;
  }

  lemma EmptyFits(check: Row -> bool, rows: seq<Row>, prefix: set<Row>, x: Row)
    requires Prefix(check, rows) == prefix && Skipped(check, rows) == {x}
    requires forall a, b | a in prefix && b in prefix && a.id == b.id :: a == b
    ensures Disputed(check, map[], rows) == {} && Conflict(check, map[], rows) == None
  {
    hide Prefix, Skipped, Least;
    NoDispute(check, map[], rows);
  }

  lemma PairHeld(a: Row, b: Row)
    requires a.id != b.id && a.seqNo != b.seqNo
    ensures var u: Table := map[a.id := AsStored(a), b.id := AsStored(b)];
      Keyed(u) && Holds(map[], u, {a, b}) && u[a.id].hash == a.hash && u[b.id].hash == b.hash
  {
    hide AsStored;
    StoredPlace(a);
    StoredPlace(b);
    assert StoredFrom({a, b}, AsStored(a)) && StoredFrom({a, b}, AsStored(b));
  }

  lemma ExposedAt(check: Row -> bool, t: Table, rows: seq<Row>, x: Row)
    requires Skipped(check, rows) == {x} && Shadowed(Accepted(check, t, rows), x)
    ensures Exposures(check, t, rows) == {x.seqNo} && Least(Exposures(check, t, rows)) == Some(x.seqNo)
  {
    hide Skipped, Accepted, Shadowed, StoredBelow, Least;
    LeastIs({x.seqNo}, x.seqNo);
  }

  lemma HeldAlready(u: Table, accepted: set<Row>)
    requires forall r | r in accepted :: r.id in u && u[r.id].hash == r.hash
    ensures Holds(u, u, accepted)
  {
  }

  /******* A conflict that is hidden the second time *******/

  lemma FourKept(check: Row -> bool, s: Row, x: Row, b: Row, d: Row)
    requires s.Sealed() && b.Sealed() && d.Sealed() && !x.Sealed() && SameRow(x, b)
    requires !SameRow(s, b) && !SameRow(s, d) && !SameRow(b, d)
    ensures Kept([s, x, b, d]) == [s, b, d] && CopyBreaks(check, [s, x, b, d]) == {}
  {
    hide Kept, CopyBreaks;
    var rows := [s, x, b, d];
    assert rows[..3] == [s, x, b];
    ThreeKept(check, s, x, b);
    KeptLast(rows);
    BreaksLast(check, rows);
    assert IndexOf([s, b], d) == 2;
    assert [s, b] + [d] == [s, b, d];
  }

  /** Rows at -1, 0 and 2 of one node, the one at 0 also unsealed. */
  ghost predicate RunOfThree(check: Row -> bool, s: Row, b: Row, d: Row)
  {
    && s.Sealed() && b.Sealed() && d.Sealed() && check(s) && check(b) && check(d)
    && s.node == b.node == d.node && s.id != b.id && s.id != d.id && b.id != d.id
    && s.seqNo == -1 && b.seqNo == 0 && d.seqNo == 2 && b.prevHash == s.hash && d.prevHash == b.hash
  }

  lemma HidingBatch(check: Row -> bool, s: Row, b: Row, d: Row)
    requires RunOfThree(check, s, b, d)
    ensures var rows := [s, b.(hash := ""), b, d];
      BatchCut(check, rows) == None && Prefix(check, rows) == {s, b, d} && Skipped(check, rows) == {b.(hash := "")}
  {
    hide BatchCut, Prefix, Skipped, Kept, CopyBreaks;
    var x := b.(hash := "");
    var rows := [s, x, b, d];
    FourKept(check, s, x, b, d);
    assert LinkedRun(check, [s, b, d], s.node);
    RunVerifies(check, rows, [s, b, d], s.node);
    UnbrokenPrefix(check, rows);
    assert Prefix(check, rows) == {s, b, d};
    SkippedIs(check, rows, x);
  }

  /** A stored row that does not link to the batch's last. */
  ghost predicate Unlinked(check: Row -> bool, n: Row, s: Row, b: Row, d: Row)
  {
    && n.Sealed() && check(n) && n.node == d.node && n.seqNo == 3 && n.prevHash != d.hash
    && n.id != s.id && n.id != b.id && n.id != d.id
  }

  lemma OneConflict(check: Row -> bool, n: Row, s: Row, b: Row, d: Row)
    requires RunOfThree(check, s, b, d) && Unlinked(check, n, s, b, d)
    ensures var rows, t: Table := [s, b.(hash := ""), b, d], map[n.id := n];
      Conflict(check, t, rows) == Some(2) && Accepted(check, t, rows) == {s, b} && LinkedStore(check, t)
  {
    hide BatchCut, Prefix, Skipped, Least, Clashes, StoredBelow, IdTaken, LinkedStore;
    var x := b.(hash := "");
    var rows, t: Table := [s, x, b, d], map[n.id := n];
    HidingBatch(check, s, b, d);
    ZeroClash(check, n, d);
    FarFits(n, s);
    FarFits(n, b);
    FarFits(n, x);
    IdsFree({s, b, d});
    assert Disputed(check, t, rows) == {2};
    LeastIs({2}, 2);
    assert Accepted(check, t, rows) == {s, b};
    OneLinked(check, n);
  }

  lemma FarFits(n: Row, r: Row)
    requires n.id != r.id && n.seqNo > r.seqNo + 1
    ensures !Clashes(map[n.id := n], r) && !StoredBelow(map[n.id := n], r)
  {
  }

  lemma IdsFree(prefix: set<Row>)
    requires forall a, b | a in prefix && b in prefix && a.id == b.id :: a == b
    ensures forall r | r in prefix :: !IdTaken(prefix, r)
  {
  }

  lemma OneLinked(check: Row -> bool, n: Row)
    requires check(n)
    ensures LinkedStore(check, map[n.id := n])
  {
  }

  lemma FirstTime(check: Row -> bool, n: Row, s: Row, b: Row, d: Row)
    requires RunOfThree(check, s, b, d) && Unlinked(check, n, s, b, d)
    ensures var rows, t: Table := [s, b.(hash := ""), b, d], map[n.id := n];
      Ingests(check, t, rows, t[s.id := AsStored(s)][b.id := AsStored(b)], IngestResult(2, 2))
  {
    hide BatchCut, Prefix, Conflict, Accepted, AsStored, Holds, Keyed;
    var rows, t: Table := [s, b.(hash := ""), b, d], map[n.id := n];
    OneConflict(check, n, s, b, d);
    PairHeldBeside(n, s, b);
  }

  lemma PairHeldBeside(n: Row, s: Row, b: Row)
    requires s.id != b.id && n.id != s.id && n.id != b.id && s.seqNo < b.seqNo < n.seqNo
    ensures var t: Table := map[n.id := n];
      var u := t[s.id := AsStored(s)][b.id := AsStored(b)];
      Keyed(u) && Holds(t, u, {s, b})
  {
    hide AsStored;
    StoredPlace(s);
    StoredPlace(b);
    assert StoredFrom({s, b}, AsStored(s)) && StoredFrom({s, b}, AsStored(b));
  }

  /** The conflict is reported the first time. The second time the unsealed row
      has a sealed one below it, at seq 0, which reads as no conflict at all:
      the row that does not fit is stored, and nothing is reported. */
  lemma ConflictHidden(check: Row -> bool, n: Row, s: Row, b: Row, d: Row)
    requires HashFixesPlace(check) && RunOfThree(check, s, b, d) && Unlinked(check, n, s, b, d)
    ensures var rows, t: Table := [s, b.(hash := ""), b, d], map[n.id := n];
      var u := t[s.id := AsStored(s)][b.id := AsStored(b)];
      && Ingests(check, t, rows, u, IngestResult(2, 2))
      && Ingests(check, u, rows, u[d.id := AsStored(d)], IngestResult(3, 0))
      && u[d.id := AsStored(d)] != u
  {
    hide BatchCut, Prefix, Skipped, Conflict, Accepted, Least, AsStored, Disputed, Exposures, HashFixesPlace, Holds, Keyed, LinkedStore, Shadowed;
    var x := b.(hash := "");
    var rows, t: Table := [s, x, b, d], map[n.id := n];
    var u := t[s.id := AsStored(s)][b.id := AsStored(b)];
    HidingBatch(check, s, b, d);
    OneConflict(check, n, s, b, d);
    FirstTime(check, n, s, b, d);
    IsShadowed({s, b}, s, x);
    ExposedAt(check, t, rows, x);
    SecondDispute(check, t, rows, u, IngestResult(2, 2));
    OverlookedTakesAll(check, u, rows);
    LastHeld(n, s, b, d);
    assert |{s, b, d}| == 3;
  }

  lemma LastHeld(n: Row, s: Row, b: Row, d: Row)
    requires s.id != b.id && s.id != d.id && b.id != d.id && n.id != s.id && n.id != b.id && n.id != d.id
    requires s.seqNo == -1 && b.seqNo == 0 && d.seqNo == 2 && n.seqNo == 3
    ensures var t: Table := map[n.id := n];
      var u := t[s.id := AsStored(s)][b.id := AsStored(b)];
      Keyed(u[d.id := AsStored(d)]) && Holds(u, u[d.id := AsStored(d)], {s, b, d}) && d.id !in u
  {
    hide AsStored;
    StoredPlace(s);
    StoredPlace(b);
    StoredPlace(d);
    assert StoredFrom({s, b, d}, AsStored(d));
  }
}
