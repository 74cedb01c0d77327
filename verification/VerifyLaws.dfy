/** What the verdict means: which copies it looks at, that it is the same for
    both SDKs, and what it says about checkpoints. */
module VerifyLaws {
  import opened Text
  import opened Rows
  import opened Sealing
  import opened RowLaws
  import opened PyRows
  import opened Verify
  import opened Copies

  /******* Copies *******/

  lemma ChosenStep(rows: seq<Row>, i: nat)
    requires rows != [] && i < |rows| - 1
    ensures var front, last := rows[..|rows| - 1], rows[|rows| - 1];
      Chosen(rows, i) <==> Chosen(front, i) && !(SameRow(last, rows[i]) && last.Sealed() && !rows[i].Sealed())
  {
    var front, last := rows[..|rows| - 1], rows[|rows| - 1];
    assert forall j | 0 <= j < |front| :: front[j] == rows[j];
    if Chosen(rows, i) && !rows[i].Sealed() {
      assert SameRow(rows[|rows| - 1], rows[i]) ==> !rows[|rows| - 1].Sealed();
    }
  }

  ghost predicate IsKept(rows: seq<Row>, r: Row)
  {
    exists i | 0 <= i < |rows| :: Chosen(rows, i) && rows[i] == r
  }

  ghost predicate KeepsChosen(rows: seq<Row>)
  {
    forall r :: r in Kept(rows) <==> IsKept(rows, r)
  }

  lemma IsKeptStep(rows: seq<Row>, r: Row)
    requires rows != []
    ensures var n := |rows| - 1;
      IsKept(rows, r) <==>
        || (IsKept(rows[..n], r) && !(SameRow(rows[n], r) && rows[n].Sealed() && !r.Sealed()))
        || (r == rows[n] && Chosen(rows, n))
  {
    hide Chosen;
    var n := |rows| - 1;
    if IsKept(rows, r) {
      var i :| 0 <= i < |rows| && Chosen(rows, i) && rows[i] == r;
      if i < n {
        ChosenStep(rows, i);
        assert rows[..n][i] == r;
      }
    }
    if IsKept(rows[..n], r) {
      var i :| 0 <= i < n && Chosen(rows[..n], i) && rows[..n][i] == r;
      ChosenStep(rows, i);
    }
  }

  /** No copy is kept yet, or the new one is the first sealed one. */
  predicate NewCopy(kept: seq<Row>, r: Row)
  {
    forall k | k in kept :: SameRow(k, r) ==> !k.Sealed() && r.Sealed()
  }

  lemma KeepHolds(kept: seq<Row>, x: Row, r: Row)
    requires Distinct(kept)
    ensures r in Keep(kept, x) <==>
      (r in kept && !(SameRow(x, r) && x.Sealed() && !r.Sealed())) || (r == x && NewCopy(kept, x))
  {
    hide KeepBy;
    KeepByHolds(RowKey, kept, x, r);
    assert NewKey(RowKey, kept, x) == NewCopy(kept, x);
  }

  /** Every copy is represented, a sealed one by a sealed one. */
  lemma {:induction false} KeptCovers(rows: seq<Row>, j: nat)
    requires j < |rows|
    ensures exists k | k in Kept(rows) :: SameRow(k, rows[j]) && (rows[j].Sealed() ==> k.Sealed())
  {
    hide Keep, Kept;
    var n := |rows| - 1;
    var kept := Kept(rows[..n]);
    KeptDistinct(rows[..n]);
    KeepHolds(kept, rows[n], rows[n]);
    KeptLast(rows);
    if j < n {
      KeptCovers(rows[..n], j);
      var k :| k in kept && SameRow(k, rows[j]) && (rows[j].Sealed() ==> k.Sealed());
      KeepHolds(kept, rows[n], k);
      assert k in Kept(rows) || (SameRow(rows[n], k) && rows[n].Sealed() && !k.Sealed());
      if k !in Kept(rows) {
        SealedCopyKept(kept, k, rows[n]);
      }
    } else if !NewCopy(kept, rows[n]) {
      var k :| k in kept && SameRow(k, rows[n]) && !(!k.Sealed() && rows[n].Sealed());
      KeepHolds(kept, rows[n], k);
    } else {
      assert rows[n] in Kept(rows);
    }
  }

  lemma SealedCopyKept(kept: seq<Row>, k: Row, x: Row)
    requires Distinct(kept) && k in kept && SameRow(x, k) && x.Sealed() && !k.Sealed()
    ensures x in Keep(kept, x)
  {
    var i := IndexOf(kept, x);
    var j :| 0 <= j < |kept| && kept[j] == k;
    assert i == j;
    assert kept[i := x][i] == x;
  }

  lemma LastChosen(rows: seq<Row>)
    requires rows != [] && KeepsChosen(rows[..|rows| - 1])
    ensures Chosen(rows, |rows| - 1) <==> NewCopy(Kept(rows[..|rows| - 1]), rows[|rows| - 1])
  {
    hide Kept;
    var n := |rows| - 1;
    var front, last := rows[..n], rows[n];
    if !Chosen(rows, n) {
      var j :| 0 <= j < n && SameRow(rows[j], last) && (rows[j].Sealed() || !last.Sealed());
      KeptCovers(front, j);
      var k :| k in Kept(front) && SameRow(k, front[j]) && (front[j].Sealed() ==> k.Sealed());
    }
    if Chosen(rows, n) {
      forall k | k in Kept(front) && SameRow(k, last) ensures !k.Sealed() && last.Sealed() {
        assert IsKept(front, k);
        var i :| 0 <= i < n && front[i] == k;
        assert rows[i] == k;
      }
    }
  }

  /** The verify looks at the first sealed copy of each row, or at the first
      copy of a row that has no sealed one, and at nothing else. */
  lemma {:induction false} KeptIsChosen(rows: seq<Row>)
    ensures KeepsChosen(rows)
  {
    hide IsKept, Keep, Chosen, NewCopy;
    if rows == [] {
      forall r ensures !IsKept(rows, r) { NoneKept(r); }
    } else {
      var n := |rows| - 1;
      KeptIsChosen(rows[..n]);
      KeptDistinct(rows[..n]);
      LastChosen(rows);
      KeptLast(rows);
      forall r ensures r in Kept(rows) <==> IsKept(rows, r) {
        KeepHolds(Kept(rows[..n]), rows[n], r);
        IsKeptStep(rows, r);
      }
    }
  }

  lemma NoneKept(r: Row)
    ensures !IsKept([], r)
  {
  }

  /******* One verdict for both SDKs *******/

  function GoCheck(sha: string -> string): Row -> bool { r => RowOk(sha, r) }

  function PyCheck(sha: string -> string): Row -> bool { r => PyRowOk(sha, r) }

  ghost predicate SameOn(c: Row -> bool, d: Row -> bool, rows: seq<Row>)
  {
    forall r | r in rows && r.Sealed() :: c(r) == d(r)
  }

  lemma KeptIsGiven(rows: seq<Row>)
    ensures forall r | r in Kept(rows) :: r in rows
  {
    KeptByGiven(RowKey, rows);
  }

  lemma {:induction false} SameCopyBreaks(c: Row -> bool, d: Row -> bool, rows: seq<Row>)
    requires SameOn(c, d, rows)
    ensures CopyBreaks(c, rows) == CopyBreaks(d, rows)
  {
    if rows != [] {
      SameCopyBreaks(c, d, rows[..|rows| - 1]);
    }
  }

  lemma SameVerdict(c: Row -> bool, d: Row -> bool, rows: seq<Row>, cps: seq<Checkpoint>, partial: bool)
    requires SameOn(c, d, rows)
    ensures FirstBreak(c, rows, cps, partial) == FirstBreak(d, rows, cps, partial)
  {
    hide Least, CheckpointBreaks, Kept, CopyBreaks, BadLink, SeqTaken, SealedBelow;
    SameCopyBreaks(c, d, rows);
    KeptIsGiven(rows);
    var kept := RowSet(Kept(rows));
    forall r | r in kept ensures Broken(c, kept, r) == Broken(d, kept, r) {
    }
    assert ChainBreaks(c, kept) == ChainBreaks(d, kept);
  }

  /** Each SDK with its own row check: one verdict on every list of rows that
      both read alike, with any copies, checkpoints and either setting. */
  lemma VerdictsAgree(sha: string -> string, rows: seq<Row>, cps: seq<Checkpoint>, partial: bool)
    requires forall r | r in rows && r.Sealed() :: Portable(r)
    ensures FirstBreak(GoCheck(sha), rows, cps, partial) == FirstBreak(PyCheck(sha), rows, cps, partial)
  {
    hide RowOk, PyRowOk, Portable, FirstBreak;
    forall r | r in rows && r.Sealed() ensures GoCheck(sha)(r) == PyCheck(sha)(r) {
      RowChecksAgree(sha, r);
    }
    SameVerdict(GoCheck(sha), PyCheck(sha), rows, cps, partial);
  }

  /******* Checkpoints *******/

  lemma NewestOfNode(cps: seq<Checkpoint>, cp: Checkpoint) returns (top: Checkpoint)
    requires cp in cps
    ensures top in cps && top.node == cp.node && Newest(cps, top)
  {
    hide Greatest;
    var seqs := set c | c in cps && c.node == cp.node :: c.seqNo;
    assert cp.seqNo in seqs;
    var highest := Greatest(seqs);
    assert forall x :: x in seqs ==> x <= highest;
    top :| top in cps && top.node == cp.node && top.seqNo == highest;
    assert forall c | c in cps && c.node == top.node :: c.seqNo in seqs;
  }

  lemma WholeBreaks(rows: set<Row>, cps: seq<Checkpoint>)
    ensures CheckpointBreaks(rows, cps, false) == {} <==> forall cp | cp in cps :: Witnessed(rows, cp)
  {
    hide Least, Greatest;
    forall cp | cp in cps && !Witnessed(rows, cp) ensures CheckpointBreaks(rows, cps, false) != {} {
      if Seqs(rows, cp.node) == {} {
        var top := NewestOfNode(cps, cp);
        assert CheckpointBreak(rows, cps, false, top).value in CheckpointBreaks(rows, cps, false);
      } else {
        assert CheckpointBreak(rows, cps, false, cp).value in CheckpointBreaks(rows, cps, false);
      }
    }
    forall cp | cp in cps && Witnessed(rows, cp) ensures CheckpointBreak(rows, cps, false, cp) == None {
      var r :| r in rows && r.node == cp.node && r.seqNo == cp.seqNo && r.hash == cp.hash;
      assert r.seqNo in Seqs(rows, cp.node);
    }
  }

  /** A whole-chain verify is OK exactly when the chains alone are and every
      checkpoint has its row. */
  lemma WholeChainExact(check: Row -> bool, rows: seq<Row>, cps: seq<Checkpoint>)
    ensures FirstBreak(check, rows, cps, false) == None <==>
      FirstBreak(check, rows, [], false) == None && forall cp | cp in cps :: Witnessed(RowSet(Kept(rows)), cp)
  {
    hide Least, CheckpointBreaks, CopyBreaks, ChainBreaks, Witnessed;
    WholeBreaks(RowSet(Kept(rows)), cps);
    WholeBreaks(RowSet(Kept(rows)), []);
  }

  /** A partial verify asks the same only of checkpoints within a node's rows. */
  ghost predicate InRange(rows: set<Row>, cp: Checkpoint)
  {
    (exists a :: a in rows && a.node == cp.node && a.seqNo <= cp.seqNo) &&
    (exists b :: b in rows && b.node == cp.node && cp.seqNo <= b.seqNo)
  }

  lemma PartialBreak(rows: set<Row>, cps: seq<Checkpoint>, cp: Checkpoint)
    ensures CheckpointBreak(rows, cps, true, cp).Some? <==> InRange(rows, cp) && !Witnessed(rows, cp)
  {
    hide Least, Greatest;
    var seqs := Seqs(rows, cp.node);
    if InRange(rows, cp) {
      var a :| a in rows && a.node == cp.node && a.seqNo <= cp.seqNo;
      var b :| b in rows && b.node == cp.node && cp.seqNo <= b.seqNo;
      assert a.seqNo in seqs && b.seqNo in seqs;
    }
    if seqs != {} && !(cp.seqNo > Greatest(seqs)) && !(cp.seqNo < Least(seqs).value) {
      var a :| a in rows && a.node == cp.node && a.seqNo == Least(seqs).value;
      var b :| b in rows && b.node == cp.node && b.seqNo == Greatest(seqs);
    }
  }

  lemma PartialExact(check: Row -> bool, rows: seq<Row>, cps: seq<Checkpoint>)
    ensures FirstBreak(check, rows, cps, true) == None <==>
      && FirstBreak(check, rows, [], true) == None
      && var kept := RowSet(Kept(rows)); forall cp | cp in cps && InRange(kept, cp) :: Witnessed(kept, cp)
  {
    hide Least, CopyBreaks, ChainBreaks, Witnessed, InRange, CheckpointBreak, Kept;
    var kept := RowSet(Kept(rows));
    var breaks := CheckpointBreaks(kept, cps, true);
    forall cp | cp in cps
      ensures CheckpointBreak(kept, cps, true, cp).Some? <==> InRange(kept, cp) && !Witnessed(kept, cp)
    {
      PartialBreak(kept, cps, cp);
    }
    forall cp | cp in cps && CheckpointBreak(kept, cps, true, cp).Some? ensures breaks != {} {
      assert CheckpointBreak(kept, cps, true, cp).value in breaks;
    }
    assert CheckpointBreaks(kept, [], true) == {};
  }

  /******* Rows given once *******/

  lemma {:induction false} GivenOnce(check: Row -> bool, rows: seq<Row>)
    requires Distinct(rows)
    ensures Kept(rows) == rows && CopyBreaks(check, rows) == {}
  {
    if rows != [] {
      var n := |rows| - 1;
      GivenOnce(check, rows[..n]);
      KeptLast(rows);
      BreaksLast(check, rows);
      assert rows == rows[..n] + [rows[n]];
    }
  }

  /** Rows given once verify exactly when none is broken. */
  lemma IntactRows(check: Row -> bool, rows: seq<Row>)
    requires Distinct(rows)
    ensures FirstBreak(check, rows, [], false) == None <==> forall r | r in rows :: !Broken(check, RowSet(rows), r)
  {
    hide Broken, Least;
    GivenOnce(check, rows);
    var kept := RowSet(rows);
    WholeBreaks(kept, []);
    forall r | r in rows && Broken(check, kept, r) ensures ChainBreaks(check, kept) != {} {
      assert r.seqNo in ChainBreaks(check, kept);
    }
  }

  /******* When the SDKs agree *******/

  /** One row on its own breaks at its seq, if it is sealed and does not check
      out. */
  lemma LoneVerdict(check: Row -> bool, r: Row)
    ensures FirstBreak(check, [r], [], false) == if r.Sealed() && !check(r) then Some(r.seqNo) else None
  {
    hide Least, Kept, CopyBreaks;
    GivenOnce(check, [r]);
    WholeBreaks({r}, []);
    assert RowSet([r]) == {r};
    LoneBroken(check, r);
    if r.Sealed() && !check(r) {
      assert ChainBreaks(check, {r}) == {r.seqNo};
      LeastIs({r.seqNo}, r.seqNo);
    } else {
      assert ChainBreaks(check, {r}) == {};
    }
  }

  lemma LoneBroken(check: Row -> bool, r: Row)
    ensures Broken(check, {r}, r) <==> r.Sealed() && !check(r)
  {
  }

  /** On a row given alone, whatever hash it carries, Go and Python come to one
      verdict exactly when the row checks agree on it. */
  lemma LoneVerdictsAgree(sha: string -> string, row: Row)
    requires Collisionless(sha) && DigestLike(sha)
    ensures (forall h: string :: FirstBreak(GoCheck(sha), [row.(hash := h)], [], false) == FirstBreak(PyCheck(sha), [row.(hash := h)], [], false))
      <==> !KnownForm(row) || !DetailOk(sha, row) || Portable(row)
  {
    hide FirstBreak, KnownForm, DetailOk, Portable, RowOk, PyRowOk;
    ChecksAgreeExactly(sha, row);
    forall h: string
      ensures FirstBreak(GoCheck(sha), [row.(hash := h)], [], false) == FirstBreak(PyCheck(sha), [row.(hash := h)], [], false)
        <==> PyRowOk(sha, row.(hash := h)) == RowOk(sha, row.(hash := h))
    {
      var r := row.(hash := h);
      LoneVerdict(GoCheck(sha), r);
      LoneVerdict(PyCheck(sha), r);
      if h == "" { NoDigestIsEmpty(sha, r); }
    }
  }

  lemma NoDigestIsEmpty(sha: string -> string, r: Row)
    requires DigestLike(sha) && r.hash == ""
    ensures !RowOk(sha, r) && !PyRowOk(sha, r)
  {
    hide RowOk, PyRowOk, Hashed;
    if RowOk(sha, r) { var v, raw, ts, shipped := HashedText(sha, r); }
    if PyRowOk(sha, r) { var v, raw, ts, shipped := PyHashedText(sha, r); }
  }
}
