/** A published checkpoint pins the history before it: two chains of a node
    that both verify and share one row's hash agree on everything sealed below
    it, as far back as both reach. */
module History {
  import opened Text
  import opened Rows
  import opened Sealing
  import opened RowLaws
  import opened Verify
  import opened VerifyLaws

  ghost predicate Intact(check: Row -> bool, rows: set<Row>)
  {
    forall r | r in rows :: !Broken(check, rows, r)
  }

  lemma VerifiedIsIntact(check: Row -> bool, rows: seq<Row>, cps: seq<Checkpoint>, partial: bool)
    requires FirstBreak(check, rows, cps, partial) == None
    ensures Intact(check, RowSet(Kept(rows)))
  {
    hide Broken, Least, Kept, CopyBreaks, CheckpointBreaks;
    var kept := RowSet(Kept(rows));
    assert forall r | r in kept && Broken(check, kept, r) :: r.seqNo in ChainBreaks(check, kept);
  }

  /** The row before `a`, which is sealed because a sealed one lies below. */
  lemma Predecessor(check: Row -> bool, rows: set<Row>, a: Row, below: Row) returns (p: Row)
    requires Intact(check, rows) && a in rows && a.Sealed()
    requires below in rows && below.Sealed() && below.node == a.node && below.seqNo < a.seqNo
    ensures p in rows && p.Sealed() && p.node == a.node && below.seqNo <= p.seqNo < a.seqNo
    ensures a.prevHash == p.hash
  {
    hide Greatest;
    var seqs := set r | r in rows && r.node == a.node && r.seqNo < a.seqNo :: r.seqNo;
    assert below.seqNo in seqs;
    var top := Greatest(seqs);
    assert forall x :: x in seqs ==> x <= top;
    p :| p in rows && p.node == a.node && p.seqNo < a.seqNo && p.seqNo == top;
    assert Precedes(rows, p, a) by {
      assert forall q | q in rows && q.node == a.node && q.seqNo < a.seqNo :: q.seqNo in seqs;
    }
    assert !Broken(check, rows, p) && !Broken(check, rows, a);
  }

  lemma OneRowPerSeq(check: Row -> bool, rows: set<Row>, a: Row, b: Row)
    requires Intact(check, rows) && a in rows && b in rows && a.Sealed() && b.Sealed()
    requires a.node == b.node && a.seqNo == b.seqNo
    ensures a.id == b.id
  {
    assert !Broken(check, rows, a);
  }

  ghost predicate OneCopy(rows: set<Row>)
  {
    forall a, b | a in rows && b in rows :: SameRow(a, b) ==> a == b
  }

  /** Whatever form, timestamp spelling, shipped_at and DEL encoding each row
      was sealed with: a sealed row of the one chain, at or below the shared
      row and not below all of the other chain, has its twin there. */
  lemma {:induction false} HashPinsHistory(sha: string -> string, A: set<Row>, B: set<Row>, a: Row, b: Row, r: Row, low: Row)
    returns (twin: Row)
    requires Collisionless(sha) && Intact(GoCheck(sha), A) && Intact(GoCheck(sha), B) && OneCopy(A)
    requires a in A && b in B && a.Sealed() && b.Sealed() && a.hash == b.hash
    requires r in A && r.Sealed() && r.node == a.node && r.seqNo <= a.seqNo
    requires low in B && low.Sealed() && low.node == a.node && low.seqNo <= r.seqNo
    ensures twin in B && twin.hash == r.hash && SameHashed(r, twin)
    decreases a.seqNo - r.seqNo
  {
    hide RowOk, Broken, SameHashed;
    RowsCheck(sha, A, a);
    RowsCheck(sha, B, b);
    HashPinsRow(sha, a, b);
    SameHashedLinks(a, b);
    if r.seqNo == a.seqNo {
      OneRowPerSeq(GoCheck(sha), A, a, r);
      twin := b;
    } else {
      var p := Predecessor(GoCheck(sha), A, a, r);
      var q := Predecessor(GoCheck(sha), B, b, low);
      twin := HashPinsHistory(sha, A, B, p, q, r, low);
    }
  }

  lemma SameHashedLinks(a: Row, b: Row)
    requires SameHashed(a, b)
    ensures a.node == b.node && a.seqNo == b.seqNo && a.prevHash == b.prevHash
  {
  }

  lemma RowsCheck(sha: string -> string, rows: set<Row>, r: Row)
    requires Intact(GoCheck(sha), rows) && r in rows && r.Sealed()
    ensures RowOk(sha, r)
  {
    hide RowOk;
    assert !Broken(GoCheck(sha), rows, r);
  }

  /** Two lists of rows that verify, with a row of the checkpointed hash in
      each: their sealed rows agree below it until one list runs out. */
  lemma CheckpointPinsHistory(sha: string -> string, rows: seq<Row>, others: seq<Row>, partial: bool, cp: Checkpoint,
                              r: Row, low: Row)
    returns (twin: Row)
    requires Collisionless(sha) && cp.hash != ""
    requires FirstBreak(GoCheck(sha), rows, [cp], partial) == None && FirstBreak(GoCheck(sha), others, [cp], partial) == None
    requires Witnessed(RowSet(Kept(rows)), cp) && Witnessed(RowSet(Kept(others)), cp)
    requires r in Kept(rows) && r.Sealed() && r.node == cp.node && r.seqNo <= cp.seqNo
    requires low in Kept(others) && low.Sealed() && low.node == cp.node && low.seqNo <= r.seqNo
    ensures twin in Kept(others) && twin.hash == r.hash && SameHashed(r, twin)
  {
    hide FirstBreak, Kept, SameHashed, Intact;
    var A, B := RowSet(Kept(rows)), RowSet(Kept(others));
    VerifiedIsIntact(GoCheck(sha), rows, [cp], partial);
    VerifiedIsIntact(GoCheck(sha), others, [cp], partial);
    KeptOnce(rows);
    var a :| a in A && a.node == cp.node && a.seqNo == cp.seqNo && a.hash == cp.hash;
    var b :| b in B && b.node == cp.node && b.seqNo == cp.seqNo && b.hash == cp.hash;
    twin := HashPinsHistory(sha, A, B, a, b, r, low);
  }

  lemma KeptOnce(rows: seq<Row>)
    ensures OneCopy(RowSet(Kept(rows)))
  {
    KeptDistinct(rows);
  }
}
