/** What an ingest does for any batch: how exact the reported seq is, when the
    call fails, and what a second delivery of the batch does. */
module IngestLaws {
  import opened Text
  import opened Rows
  import opened Sealing
  import opened RowLaws
  import opened Verify
  import opened Copies
  import opened VerifyLaws
  import opened Walk
  import opened GoVerifier
  import opened Store
  import opened IngestSpec

  /******* The cut is exact *******/

  /** The row or a copy of it, perhaps shipped or redacted, is in the table. */
  ghost predicate Stored(t: Table, b: Row) { b.id in t && t[b.id].hash == b.hash && t[b.id].node == b.node }

  lemma BelowAccepted(check: Row -> bool, t: Table, rows: seq<Row>, b: Row) returns (k: Row)
    requires b in rows && b.Sealed() && Below(b, BatchCut(check, rows)) && Before(b, Reported(check, t, rows))
    ensures k in Accepted(check, t, rows) && SameRow(k, b) && k.hash == b.hash
  {
    hide BatchCut, Prefix, Disputed, Least;
    k := PrefixCovers(check, rows, b);
  }

  /** What a result says was taken is held, by id and hash. */
  lemma BelowHeld(check: Row -> bool, t: Table, rows: seq<Row>, u: Table, res: IngestResult, b: Row)
    requires Ingests(check, t, rows, u, res)
    requires b in rows && b.Sealed() && Below(b, BatchCut(check, rows)) && Before(b, res.rejectedFromSeq)
    ensures b.id in u && u[b.id].hash == b.hash
  {
    hide BatchCut, Accepted, Reported, Keyed, StoredFrom;
    var k := BelowAccepted(check, t, rows, b);
  }

  /** A held row is at the place of the accepted one. */
  lemma HeldPlace(check: Row -> bool, t: Table, rows: seq<Row>, u: Table, res: IngestResult, k: Row)
    requires HashFixesPlace(check) && LinkedStore(check, t) && Ingests(check, t, rows, u, res) && k in Accepted(check, t, rows)
    ensures k.id in u && u[k.id] in u.Values && SameChain(u[k.id], k)
  {
    hide AsStored, Accepted, Reported, HashFixesPlace, InPrefix, LinkTarget, VerifiedRows, BatchCut, StoredFrom, Keyed;
    var accepted := Accepted(check, t, rows);
    AcceptedIn(check, t, rows, k);
    PrefixRow(check, rows, k);
    if k.id in t {
      assert t[k.id] in t.Values;
      FixedPlace(check, t[k.id], k);
    } else {
      var s := NewSource(t, u, accepted, k.id);
      AcceptedIn(check, t, rows, s);
      StoredPlace(s);
      SameHashSame(check, rows, s, k);
    }
  }

  lemma BelowStored(check: Row -> bool, t: Table, rows: seq<Row>, u: Table, res: IngestResult, b: Row)
    requires HashFixesPlace(check) && LinkedStore(check, t) && Ingests(check, t, rows, u, res)
    requires b in rows && b.Sealed() && Below(b, BatchCut(check, rows)) && Before(b, res.rejectedFromSeq)
    ensures Stored(u, b)
  {
    hide HashFixesPlace, LinkedStore, Accepted, BatchCut, Reported, Holds;
    var k := BelowAccepted(check, t, rows, b);
    HeldPlace(check, t, rows, u, res, k);
  }

  /** No row from the break on is taken for a copy of one that was added. */
  lemma NotAdded(check: Row -> bool, t: Table, rows: seq<Row>, u: Table, res: IngestResult, b: Row)
    requires HashFixesPlace(check) && Ingests(check, t, rows, u, res)
    requires b in rows && b.Sealed() && !Below(b, BatchCut(check, rows)) && b.id !in t
    ensures !Stored(u, b)
  {
    hide AsStored, Accepted, Reported, HashFixesPlace, InPrefix, VerifiedRows, BatchCut, StoredFrom, Keyed;
    if Stored(u, b) {
      var s := NewSource(t, u, Accepted(check, t, rows), b.id);
      AcceptedIn(check, t, rows, s);
      PrefixGiven(check, rows, s);
      StoredPlace(s);
      CopyNotBelow(check, rows, s, b);
    }
  }

  lemma CopyNotBelow(check: Row -> bool, rows: seq<Row>, s: Row, b: Row)
    requires HashFixesPlace(check) && InPrefix(check, rows, s) && b in rows && b.Sealed() && SameRow(s, b) && s.hash == b.hash
    ensures Below(b, BatchCut(check, rows))
  {
    hide BatchCut, Sequenced, CopyBreaksBy, KeptBy, HashFixesPlace, InPrefix, BadLink, SeqTaken, InSeqOrder;
    PrefixRow(check, rows, s);
    SortedBatch(rows);
    var sorted := Sequenced(rows);
    var n :| 0 <= n < |sorted| && sorted[n] == b;
    var k, f := SealedCopyBy(JoinedKey, check, sorted, n);
    KeptOnceBy(JoinedKey, sorted, k, s);
    BreaksAtOrAfter(check, rows);
    if k != b && check(b) { FixedPlace(check, s, b); }
  }

  /** What was added is sealed rows of the batch below the reported seq. All of
      those are stored, exactly unless the batch breaks at seq 0, which cannot
      be reported, with a row from there on that was not stored before. */
  lemma CutIsExact(check: Row -> bool, t: Table, rows: seq<Row>, u: Table, res: IngestResult)
    requires HashFixesPlace(check) && LinkedStore(check, t) && Ingests(check, t, rows, u, res)
    ensures (forall b | b in rows && b.Sealed() && Before(b, res.rejectedFromSeq) :: Stored(u, b)) <==>
      (BatchCut(check, rows) == Some(0) ==>
         forall b | b in rows && b.Sealed() && b.seqNo >= 0 && Before(b, Reported(check, t, rows)) :: Stored(t, b))
    ensures forall id | id in u && id !in t :: exists b | b in rows && b.Sealed() :: u[id] == AsStored(b) && Before(b, res.rejectedFromSeq)
  {
    hide AsStored, HashFixesPlace, LinkedStore, Accepted, Reported, BatchCut, Stored, StoredFrom;
    var cut := BatchCut(check, rows);
    CutAtMost(check, t, rows);
    forall b | b in rows && b.Sealed() && Before(b, res.rejectedFromSeq)
      ensures Below(b, cut) ==> Stored(u, b)
      ensures !Below(b, cut) ==> cut == Some(0) && b.seqNo >= 0 && (Stored(u, b) <==> Stored(t, b))
    {
      if Below(b, cut) {
        BelowStored(check, t, rows, u, res, b);
      } else {
        StoredStays(t, u, b);
        if b.id !in t { NotAdded(check, t, rows, u, res, b); }
      }
    }
    forall id | id in u && id !in t
      ensures exists b | b in rows && b.Sealed() :: u[id] == AsStored(b) && Before(b, res.rejectedFromSeq)
    {
      var s := NewSource(t, u, Accepted(check, t, rows), id);
      AcceptedIn(check, t, rows, s);
    }
  }

  lemma StoredStays(t: Table, u: Table, b: Row)
    requires forall id | id in t :: id in u && u[id] == t[id]
    ensures b.id in t ==> Stored(u, b) == Stored(t, b)
    ensures b.id !in t ==> !Stored(t, b)
  {
  }

  /** The reported seq is at or below the batch's break, unless that is at 0. */
  lemma CutAtMost(check: Row -> bool, t: Table, rows: seq<Row>)
    ensures forall b | Before(b, Reported(check, t, rows)) && !Below(b, BatchCut(check, rows)) ::
      BatchCut(check, rows) == Some(0) && b.seqNo >= 0
  {
    hide BatchCut, Prefix, Skipped, Least, IdTaken, Clashes, StoredBelow;
    var c := Least(Disputed(check, t, rows));
    if c.Some? && BatchCut(check, rows).Some? && BatchCut(check, rows) != Some(0) { ConflictPlace(check, t, rows, c.value); }
  }

  /** A conflict is at a row below the break; an unsealed one may be anywhere if
      the break is at 0. */
  lemma ConflictPlace(check: Row -> bool, t: Table, rows: seq<Row>, m: int)
    requires m in Disputed(check, t, rows)
    ensures BatchCut(check, rows).Some? ==> m < BatchCut(check, rows).value || BatchCut(check, rows) == Some(0)
    ensures m != 0 ==> m != CutSeq(BatchCut(check, rows))
  {
    hide BatchCut, Prefix, IdTaken, Clashes, StoredBelow;
    if x :| x in Skipped(check, rows) && x.seqNo == m {
    } else {
      var r :| r in Prefix(check, rows) && r.seqNo == m;
      PrefixGiven(check, rows, r);
    }
  }

  /******* When an ingest fails *******/

  /** A row that cannot be inserted for another one's sake. */
  ghost predicate Misfit(t: Table, prefix: set<Row>, r: Row)
  {
    || IdTaken(prefix, r)
    || (if r.id in t then t[r.id].hash != r.hash else exists o :: At(t, o, r.node, r.seqNo))
  }

  ghost predicate Fails(check: Row -> bool, t: Table, rows: seq<Row>)
  {
    exists r :: r in Accepted(check, t, rows) && Misfit(t, Prefix(check, rows), r)
  }

  /** Only after a conflict at seq 0 was overlooked. */
  lemma FailsOverlooked(check: Row -> bool, t: Table, rows: seq<Row>)
    requires Fails(check, t, rows)
    ensures Overlooked(check, t, rows)
  {
    hide Overlooked, Accepted, Prefix, IdTaken;
    var r :| r in Accepted(check, t, rows) && Misfit(t, Prefix(check, rows), r);
    if !Overlooked(check, t, rows) { AcceptedFits(check, t, rows, r); }
  }

  /** Where rows are held as they should be, none was a misfit. */
  lemma HeldFits(check: Row -> bool, t: Table, rows: seq<Row>, u: Table, r: Row)
    requires HashFixesPlace(check) && Keyed(t) && Keyed(u) && Holds(t, u, Accepted(check, t, rows)) && r in Accepted(check, t, rows)
    ensures !Misfit(t, Prefix(check, rows), r)
  {
    hide AsStored, Prefix, Conflict, HashFixesPlace, StoredFrom;
    forall o | o in Prefix(check, rows) && o.id == r.id && BySeqThenNode(o, r) ensures o == r {
      assert o in Accepted(check, t, rows);
      SameHashSame(check, rows, o, r);
    }
    if r.id !in t { PlaceWasFree(check, t, rows, u, r); }
  }

  lemma PlaceWasFree(check: Row -> bool, t: Table, rows: seq<Row>, u: Table, r: Row)
    requires HashFixesPlace(check) && Keyed(t) && Keyed(u) && Holds(t, u, Accepted(check, t, rows))
    requires r in Accepted(check, t, rows) && r.id !in t
    ensures forall o :: !At(t, o, r.node, r.seqNo)
  {
    hide AsStored, Accepted, HashFixesPlace, StoredFrom, InPrefix;
    var s := NewSource(t, u, Accepted(check, t, rows), r.id);
    AcceptedIn(check, t, rows, r);
    AcceptedIn(check, t, rows, s);
    StoredPlace(s);
    SameHashSame(check, rows, s, r);
    assert u[r.id] in u.Values;
    forall o | o in t.Values ensures o in u.Values && o.id in t {
      Stays(t, u, o);
    }
  }

  /******* Ingesting again *******/

  ghost predicate Shadowed(accepted: set<Row>, x: Row)
  {
    exists s :: s in accepted && s.node == x.node && s.seqNo < x.seqNo
  }

  /** Where an unsealed row has a sealed row of its node below it once the batch
      is stored. As the batch verified that far, it is a copy of a row that is
      also sealed. */
  ghost function Exposures(check: Row -> bool, t: Table, rows: seq<Row>): set<int>
  {
    set x | x in Skipped(check, rows) && (StoredBelow(t, x) || Shadowed(Accepted(check, t, rows), x)) :: x.seqNo
  }

  lemma ExposedIs(check: Row -> bool, t: Table, rows: seq<Row>, u: Table, res: IngestResult, x: Row)
    requires HashFixesPlace(check) && LinkedStore(check, t) && Ingests(check, t, rows, u, res)
    ensures StoredBelow(u, x) <==> StoredBelow(t, x) || Shadowed(Accepted(check, t, rows), x)
  {
    hide AsStored, Accepted, Ingests, HashFixesPlace, LinkedStore, Extends, InPrefix;
    var accepted := Accepted(check, t, rows);
    IngestExtends(check, t, rows, u, res);
    if StoredBelow(u, x) {
      var o :| o in u.Values && o.node == x.node && o.Sealed() && o.seqNo < x.seqNo;
      var added, s := RowSource(t, u, accepted, o);
      if added { StoredPlace(s); }
    }
    if StoredBelow(t, x) {
      var o :| o in t.Values && o.node == x.node && o.Sealed() && o.seqNo < x.seqNo;
      ExtendsKeeps(t, u, accepted, o);
    }
    if Shadowed(accepted, x) {
      var s :| s in accepted && s.node == x.node && s.seqNo < x.seqNo;
      AcceptedIn(check, t, rows, s);
      HeldPlace(check, t, rows, u, res, s);
    }
  }

  /** Nothing accepted conflicts the second time. */
  lemma AcceptedSettled(check: Row -> bool, t: Table, rows: seq<Row>, u: Table, res: IngestResult, r: Row)
    requires HashFixesPlace(check) && Ingests(check, t, rows, u, res) && r in Accepted(check, t, rows)
    ensures !IdTaken(Prefix(check, rows), r) && !Clashes(u, r)
  {
    hide AsStored, Prefix, Conflict, HashFixesPlace, Reported, StoredFrom, Keyed;
    forall o | o in Prefix(check, rows) && o.id == r.id && BySeqThenNode(o, r) ensures o == r {
      assert o in Accepted(check, t, rows);
      SameHashSame(check, rows, o, r);
    }
  }

  /** The conflict that cut the batch is there the second time. */
  lemma ConflictStays(check: Row -> bool, t: Table, rows: seq<Row>, u: Table, res: IngestResult)
    requires Ingests(check, t, rows, u, res) && Conflict(check, t, rows).Some?
    ensures Conflict(check, t, rows).value in Disputed(check, u, rows)
  {
    hide Prefix, Skipped, Clashes, IdTaken, Accepted, Least, Reported, Keyed, StoredFrom, StoredBelow;
    var m := Conflict(check, t, rows).value;
    var prefix, skipped := Prefix(check, rows), Skipped(check, rows);
    assert m in Disputed(check, t, rows);
    if x :| x in skipped && StoredBelow(t, x) && x.seqNo == m {
      BelowStays(t, u, x);
    } else {
      var r :| r in prefix && (IdTaken(prefix, r) || Clashes(t, r)) && r.seqNo == m;
      if !IdTaken(prefix, r) { ClashStays(check, t, rows, u, res, r); }
    }
  }

  lemma BelowStays(t: Table, u: Table, x: Row)
    requires (forall id | id in t :: id in u && u[id] == t[id]) && StoredBelow(t, x)
    ensures StoredBelow(u, x)
  {
    var o :| o in t.Values && o.node == x.node && o.Sealed() && o.seqNo < x.seqNo;
    Stays(t, u, o);
  }

  lemma ClashStays(check: Row -> bool, t: Table, rows: seq<Row>, u: Table, res: IngestResult, r: Row)
    requires Ingests(check, t, rows, u, res) && InPrefix(check, rows, r) && Clashes(t, r)
    requires Conflict(check, t, rows) == Some(r.seqNo)
    ensures IdTaken(Prefix(check, rows), r) || Clashes(u, r)
  {
    hide Prefix, Conflict, Reported, AsStored, StoredFrom, LinkTarget;
    var accepted := Accepted(check, t, rows);
    if r.id !in t && r.id in u {
      var s := NewSource(t, u, accepted, r.id);
      assert s.seqNo < r.seqNo && BySeqThenNode(s, r);
    } else if r.id !in t {
      forall o | o in t.Values ensures o in u.Values { Stays(t, u, o); }
      assert forall o, node, n :: At(t, o, node, n) ==> At(u, o, node, n);
    }
  }

  /** The lowest conflict of the second time. */
  lemma SecondDispute(check: Row -> bool, t: Table, rows: seq<Row>, u: Table, res: IngestResult)
    requires HashFixesPlace(check) && LinkedStore(check, t) && Ingests(check, t, rows, u, res)
    ensures Least(Disputed(check, u, rows)) == Lower(Conflict(check, t, rows), Least(Exposures(check, t, rows)))
  {
    hide Prefix, Skipped, Clashes, IdTaken, Conflict, Least, Ingests, StoredBelow, HashFixesPlace, LinkedStore, Shadowed;
    var c, exposed, again := Conflict(check, t, rows), Exposures(check, t, rows), Disputed(check, u, rows);
    forall x ensures StoredBelow(u, x) <==> StoredBelow(t, x) || Shadowed(Accepted(check, t, rows), x) {
      ExposedIs(check, t, rows, u, res, x);
    }
    forall m | m in again ensures m in exposed || (c.Some? && m >= c.value) {
      if x :| x in Skipped(check, rows) && StoredBelow(u, x) && x.seqNo == m {
      } else {
        var r :| r in Prefix(check, rows) && (IdTaken(Prefix(check, rows), r) || Clashes(u, r)) && r.seqNo == m;
        if r in Accepted(check, t, rows) { AcceptedSettled(check, t, rows, u, res, r); }
      }
    }
    assert forall m | m in exposed :: m in again;
    if c.Some? { ConflictStays(check, t, rows, u, res); }
    LeastOfBoth(again, c, exposed);
  }

  lemma LeastOfBoth(all: set<int>, c: Option<int>, exposed: set<int>)
    requires forall m | m in all :: m in exposed || (c.Some? && m >= c.value)
    requires (forall m | m in exposed :: m in all) && (c.Some? ==> c.value in all)
    ensures Least(all) == Lower(c, Least(exposed))
  {
    hide Least;
    var l := Lower(c, Least(exposed));
    if l.Some? { LeastIs(all, l.value); }
  }

  /** The second delivery finds another lowest conflict, one that counts. */
  ghost predicate Unsettled(check: Row -> bool, t: Table, rows: seq<Row>)
  {
    var c, e := Conflict(check, t, rows), Least(Exposures(check, t, rows));
    e.Some? && if c.Some? then e.value < c.value else e.value != 0
  }

  /** The second delivery overlooks, at seq 0, the conflict of the first, and
      there is more of the batch to take. */
  ghost predicate Reopens(check: Row -> bool, t: Table, rows: seq<Row>)
  {
    var c := Conflict(check, t, rows);
    && c.Some? && c.value > 0 && Least(Exposures(check, t, rows)) == Some(0)
    && exists r :: r in Prefix(check, rows) && r.seqNo >= c.value && r.id !in t
  }

  lemma SecondConflict(check: Row -> bool, t: Table, rows: seq<Row>, u: Table, res: IngestResult)
    requires HashFixesPlace(check) && LinkedStore(check, t) && Ingests(check, t, rows, u, res)
    ensures Conflict(check, u, rows) == Conflict(check, t, rows) <==> !Unsettled(check, t, rows)
  {
    hide HashFixesPlace, LinkedStore, Ingests, Disputed, Exposures, Least;
    SecondDispute(check, t, rows, u, res);
  }

  lemma ConflictNotCut(check: Row -> bool, t: Table, rows: seq<Row>)
    ensures Conflict(check, t, rows).Some? ==> Conflict(check, t, rows).value != CutSeq(BatchCut(check, rows))
  {
    hide BatchCut, Disputed, Least;
    var c := Least(Disputed(check, t, rows));
    if c.Some? { ConflictPlace(check, t, rows, c.value); }
  }

  lemma ReportsDiffer(check: Row -> bool, t: Table, u: Table, rows: seq<Row>)
    ensures Reported(check, t, rows) == Reported(check, u, rows) <==> Conflict(check, t, rows) == Conflict(check, u, rows)
  {
    hide BatchCut, Conflict;
    ConflictNotCut(check, t, rows);
    ConflictNotCut(check, u, rows);
  }

  lemma SecondTable(check: Row -> bool, t: Table, rows: seq<Row>, u: Table, first: IngestResult, w: Table, second: IngestResult)
    requires HashFixesPlace(check) && Ingests(check, t, rows, u, first) && Ingests(check, u, rows, w, second)
    ensures w == u <==> forall r | r in Accepted(check, u, rows) && r !in Accepted(check, t, rows) :: r.id in t
  {
    hide Accepted, HashFixesPlace, Reported, Keyed, AsStored, StoredFrom, InPrefix;
    var before, after := Accepted(check, t, rows), Accepted(check, u, rows);
    forall r | r in after && r !in before && r.id !in t ensures r.id !in u {
      if r.id in u {
        var s := NewSource(t, u, before, r.id);
        StoredHash(s);
        AcceptedIn(check, t, rows, s);
        AcceptedIn(check, u, rows, r);
        SameHashSame(check, rows, s, r);
      }
    }
    if forall r | r in after && r !in before :: r.id in t {
      forall id | id in w ensures id in u {
        if id !in u { var s := NewSource(u, w, after, id); }
      }
      assert w.Keys == u.Keys;
    }
  }

  /** Ingesting a batch again reports the same unless the first time left an
      unsealed row above a sealed one that is now stored; and it changes
      nothing, unless that row is at seq 0 and hides the conflict of the first
      time. */
  lemma IngestTwice(check: Row -> bool, t: Table, rows: seq<Row>, u: Table, first: IngestResult, w: Table, second: IngestResult)
    requires HashFixesPlace(check) && LinkedStore(check, t)
    requires Ingests(check, t, rows, u, first) && Ingests(check, u, rows, w, second)
    ensures second == first <==> !Unsettled(check, t, rows)
    ensures w == u <==> !Reopens(check, t, rows)
  {
    hide HashFixesPlace, LinkedStore, Conflict, Exposures, Least, Prefix, BatchCut, Holds;
    SecondConflict(check, t, rows, u, first);
    ReportsDiffer(check, t, u, rows);
    if Conflict(check, u, rows) == Conflict(check, t, rows) {
      assert Accepted(check, u, rows) == Accepted(check, t, rows);
    }
    SecondTable(check, t, rows, u, first, w, second);
    MoreTaken(check, t, rows, u, first);
  }

  lemma MoreTaken(check: Row -> bool, t: Table, rows: seq<Row>, u: Table, first: IngestResult)
    requires HashFixesPlace(check) && LinkedStore(check, t) && Ingests(check, t, rows, u, first)
    ensures (forall r | r in Accepted(check, u, rows) && r !in Accepted(check, t, rows) :: r.id in t) <==> !Reopens(check, t, rows)
  {
    hide HashFixesPlace, LinkedStore, Ingests, Disputed, Exposures, Least, Prefix;
    SecondDispute(check, t, rows, u, first);
  }

  /** At Go's own row check. */
  lemma GoIngests(sha: string -> string, t: Table, rows: seq<Row>, u: Table, res: IngestResult)
    requires Collisionless(sha) && LinkedStore(GoCheck(sha), t) && Ingests(GoCheck(sha), t, rows, u, res)
    ensures LinkedStore(GoCheck(sha), u) <==>
      (Overlooked(GoCheck(sha), t, rows) ==> forall r | r in Prefix(GoCheck(sha), rows) :: !LinkClash(t, r))
    ensures (forall b | b in rows && b.Sealed() && Before(b, res.rejectedFromSeq) :: Stored(u, b)) <==>
      (BatchCut(GoCheck(sha), rows) == Some(0) ==>
         forall b | b in rows && b.Sealed() && b.seqNo >= 0 && Before(b, Reported(GoCheck(sha), t, rows)) :: Stored(t, b))
  {
    hide RowOk, LinkedStore, Ingests, Overlooked, Prefix, LinkClash, BatchCut, Reported, Stored, HashFixesPlace, StoreStable;
    GoCheckFixesPlace(sha);
    GoCheckStoreStable(sha);
    IngestKeepsLinked(GoCheck(sha), t, rows, u, res);
    CutIsExact(GoCheck(sha), t, rows, u, res);
  }
}
