/** A walk over rows in seq order that stops at the first row it rejects finds
    the lowest break of the chains, although it looks only backwards. */
module Walk {
  import opened Text
  import opened Rows
  import opened Sorting
  import opened Verify

  predicate InSeqOrder(rows: seq<Row>)
  {
    forall i, j | 0 <= i < j < |rows| :: rows[i].seqNo <= rows[j].seqNo
  }

  lemma InOrder(rows: seq<Row>, i: nat, j: nat)
    requires InSeqOrder(rows) && i < |rows| && j < |rows|
    ensures i <= j ==> rows[i].seqNo <= rows[j].seqNo
  {
  }

  /** The latest row of `node` before `i`, or -1. */
  function LastOn(rows: seq<Row>, i: nat, node: string): (k: int)
    requires i <= |rows|
    ensures -1 <= k < i
    ensures k >= 0 ==> rows[k].node == node
    ensures forall j | k < j < i :: rows[j].node != node
  {
    if i == 0 then -1 else if rows[i - 1].node == node then i - 1 else LastOn(rows, i - 1, node)
  }

  predicate SeqSeen(rows: seq<Row>, i: nat, node: string, seqNo: int)
    requires i <= |rows|
  {
    exists k | 0 <= k < i :: rows[k].node == node && rows[k].Sealed() && rows[k].seqNo == seqNo
  }

  predicate StartedBy(rows: seq<Row>, node: string, seqNo: int)
  {
    exists k | 0 <= k < |rows| :: rows[k].node == node && rows[k].Sealed() && rows[k].seqNo <= seqNo
  }

  predicate LinkFails(rows: seq<Row>, i: nat)
    requires i < |rows|
  {
    var p := LastOn(rows, i, rows[i].node);
    p >= 0 && !Links(rows[p], rows[i])
  }

  /** The walk rejects the row at `i`. */
  predicate StopsAt(check: Row -> bool, rows: seq<Row>, i: nat)
    requires i < |rows|
  {
    var r := rows[i];
    if r.Sealed() then SeqSeen(rows, i, r.node, r.seqNo) || !check(r) || LinkFails(rows, i)
    else StartedBy(rows, r.node, r.seqNo)
  }

  lemma LastPrecedes(rows: seq<Row>, i: nat, p: nat)
    requires InSeqOrder(rows) && i < |rows| && LastOn(rows, i, rows[i].node) == p && rows[p].seqNo < rows[i].seqNo
    ensures Precedes(RowSet(rows), rows[p], rows[i])
  {
    hide InSeqOrder;
    assert rows[p] in RowSet(rows);
    forall q | q in RowSet(rows) && q.node == rows[i].node && q.seqNo < rows[i].seqNo ensures q.seqNo <= rows[p].seqNo {
      var k :| 0 <= k < |rows| && rows[k] == q;
      InOrder(rows, i, k);
      InOrder(rows, k, p);
    }
  }

  /** Where the walk stops, the chain is broken. */
  lemma StopIsBroken(check: Row -> bool, rows: seq<Row>, i: nat)
    requires Distinct(rows) && InSeqOrder(rows) && i < |rows| && StopsAt(check, rows, i)
    ensures Broken(check, RowSet(rows), rows[i])
  {
    var r := rows[i];
    if !r.Sealed() {
      var k :| 0 <= k < |rows| && rows[k].node == r.node && rows[k].Sealed() && rows[k].seqNo <= r.seqNo;
      assert rows[k] in RowSet(rows);
    } else if SeqSeen(rows, i, r.node, r.seqNo) {
      var k :| 0 <= k < i && rows[k].node == r.node && rows[k].Sealed() && rows[k].seqNo == r.seqNo;
      assert !SameRow(rows[k], rows[i]);
      assert rows[k] in RowSet(rows);
    } else if check(r) {
      var p := LastOn(rows, i, r.node);
      assert rows[p].seqNo != r.seqNo;
      LastPrecedes(rows, i, p);
    }
  }

  lemma SealedPairStops(check: Row -> bool, rows: seq<Row>, i: nat, j: nat) returns (k: nat)
    requires InSeqOrder(rows) && i < |rows| && j < |rows| && i != j
    requires rows[i].node == rows[j].node && rows[i].seqNo == rows[j].seqNo && (rows[i].Sealed() || rows[j].Sealed())
    ensures k < |rows| && StopsAt(check, rows, k) && rows[k].seqNo == rows[i].seqNo
  {
    if rows[i].Sealed() && rows[j].Sealed() {
      k := if i < j then j else i;
      assert SeqSeen(rows, k, rows[k].node, rows[k].seqNo);
    } else {
      k := if rows[i].Sealed() then j else i;
      assert StartedBy(rows, rows[k].node, rows[k].seqNo);
    }
  }

  lemma BadLinkStops(check: Row -> bool, rows: seq<Row>, j: nat) returns (k: nat)
    requires InSeqOrder(rows) && j < |rows| && rows[j].Sealed() && BadLink(RowSet(rows), rows[j])
    ensures k < |rows| && StopsAt(check, rows, k) && rows[k].seqNo <= rows[j].seqNo
  {
    var r := rows[j];
    var p :| Precedes(RowSet(rows), p, r) && !Links(p, r);
    var i :| 0 <= i < |rows| && rows[i] == p;
    var q := LastOn(rows, j, r.node);
    if rows[q].seqNo == r.seqNo {
      k := SealedPairStops(check, rows, j, q);
    } else {
      assert rows[q] in RowSet(rows);
      if i != q && (p.Sealed() || rows[q].Sealed()) {
        k := SealedPairStops(check, rows, i, q);
      } else {
        k := j;
      }
    }
  }

  /** A broken row makes the walk stop at or before its seq. */
  lemma BrokenStops(check: Row -> bool, rows: seq<Row>, j: nat) returns (k: nat)
    requires InSeqOrder(rows) && j < |rows| && Broken(check, RowSet(rows), rows[j])
    ensures k < |rows| && StopsAt(check, rows, k) && rows[k].seqNo <= rows[j].seqNo
  {
    var r := rows[j];
    k := j;
    if !r.Sealed() {
      var o :| o in RowSet(rows) && o.node == r.node && o.Sealed() && o.seqNo <= r.seqNo;
      var i :| 0 <= i < |rows| && rows[i] == o;
    } else if SeqTaken(RowSet(rows), r) {
      var o :| o in RowSet(rows) && o.node == r.node && o.seqNo == r.seqNo && o.Sealed() && o.id != r.id;
      var i :| 0 <= i < |rows| && rows[i] == o;
      k := SealedPairStops(check, rows, i, j);
    } else if check(r) {
      k := BadLinkStops(check, rows, j);
    }
  }

  /** The first stop, or the end, gives the lowest break, or none. */
  lemma FirstStopIsLeast(check: Row -> bool, rows: seq<Row>, i: nat)
    requires Distinct(rows) && InSeqOrder(rows) && i <= |rows|
    requires forall k | 0 <= k < i :: !StopsAt(check, rows, k)
    requires i < |rows| ==> StopsAt(check, rows, i)
    ensures Least(ChainBreaks(check, RowSet(rows))) == if i < |rows| then Some(rows[i].seqNo) else None
  {
    hide StopsAt, Broken, InSeqOrder, Distinct;
    var breaks := ChainBreaks(check, RowSet(rows));
    forall x | x in breaks ensures i < |rows| && rows[i].seqNo <= x {
      var r :| r in RowSet(rows) && Broken(check, RowSet(rows), r) && r.seqNo == x;
      var j :| 0 <= j < |rows| && rows[j] == r;
      var k := BrokenStops(check, rows, j);
      assert i <= k;
      InOrder(rows, i, k);
    }
    if i < |rows| {
      StopIsBroken(check, rows, i);
      LeastIs(breaks, rows[i].seqNo);
    }
  }

  /******* Putting rows in order *******/

  ghost predicate OrdersBySeq(le: (Row, Row) -> bool)
  {
    TotalOrder(le) && forall a, b :: le(a, b) ==> a.seqNo <= b.seqNo
  }

  predicate BySeq(a: Row, b: Row) { a.seqNo <= b.seqNo }

  lemma BySeqOrders()
    ensures OrdersBySeq(BySeq)
  {
  }

  predicate BySeqThenNode(a: Row, b: Row)
  {
    a.seqNo < b.seqNo || (a.seqNo == b.seqNo && !Less(b.node, a.node))
  }

  lemma BySeqThenNodeOrders()
    ensures OrdersBySeq(BySeqThenNode)
  {
    hide Less;
    forall a: Row, b: Row ensures BySeqThenNode(a, b) || BySeqThenNode(b, a) {
      if Less(b.node, a.node) && Less(a.node, b.node) {
        LessTransitive(a.node, b.node, a.node);
        LessIrreflexive(a.node);
      }
    }
    forall a: Row, b: Row, c: Row | BySeqThenNode(a, b) && BySeqThenNode(b, c) ensures BySeqThenNode(a, c) {
      if a.seqNo == c.seqNo && Less(c.node, a.node) {
        if a.node != b.node {
          LessConnected(a.node, b.node);
          LessTransitive(c.node, a.node, b.node);
        }
      }
    }
  }

  /** Sorting keeps the rows, one copy of each, and puts them in seq order. */
  lemma SortedRows(le: (Row, Row) -> bool, rows: seq<Row>)
    requires Distinct(rows) && OrdersBySeq(le)
    ensures var s := Sort(le, rows); Distinct(s) && InSeqOrder(s) && RowSet(s) == RowSet(rows)
  {
    SortSorts(le, rows);
    SortKeepsPairwise(le, (a, b) => !SameRow(a, b), rows);
  }
}
