/** Shipping a chain in windows: re-sent, reordered, redacted or marked copies
    all converge to the source's chain. */
module Replication {
  import opened Text
  import opened Timestamps
  import opened Rows
  import opened Sealing
  import opened RowLaws
  import opened Sorting
  import opened Verify
  import opened Copies
  import opened VerifyLaws
  import opened GoVerifier
  import opened JoinedKeys
  import opened Store
  import opened IngestSpec
  import opened IngestLaws

  /** A node's verified chain without gaps, numbered from 1. */
  ghost predicate SourceChain(check: Row -> bool, chain: seq<Row>, node: string)
  {
    && (forall i | 0 <= i < |chain| :: chain[i].node == node && chain[i].seqNo == i + 1 && chain[i].Sealed() && check(chain[i]))
    && (forall i | 0 < i < |chain| :: chain[i].prevHash == chain[i - 1].hash)
    && (forall i, j | 0 <= i < j < |chain| :: chain[i].id != chain[j].id)
  }

  /** A copy of the chain's row at its seq: perhaps shipped or redacted, and it
      still checks out. */
  ghost predicate CopyOf(check: Row -> bool, chain: seq<Row>, r: Row)
  {
    1 <= r.seqNo <= |chain| && SameChain(chain[r.seqNo - 1], r) && check(r)
  }

  /** The receiver has exactly rows 1..k of the node. */
  ghost predicate HoldsUpTo(check: Row -> bool, t: Table, chain: seq<Row>, node: string, k: nat)
    requires k <= |chain|
  {
    && Keyed(t)
    && (forall i | 0 <= i < k :: chain[i].id in t)
    && (forall r | r in t.Values && r.node == node :: CopyOf(check, chain, r) && r.seqNo <= k)
    && (forall i | 0 <= i < |chain| && chain[i].id in t :: t[chain[i].id].node == node)
  }

  predicate Present(rows: seq<Row>, n: int) { exists r | r in rows :: r.seqNo == n }

  /** The batch has copies of exactly rows from..to, in any order and number. */
  ghost predicate Window(check: Row -> bool, rows: seq<Row>, chain: seq<Row>, lo: nat, hi: nat)
    requires 1 <= lo <= hi <= |chain|
  {
    && (forall r | r in rows :: CopyOf(check, chain, r) && lo <= r.seqNo <= hi)
    && (forall n | lo <= n <= hi :: Present(rows, n))
  }

  lemma CopiesAlike(check: Row -> bool, chain: seq<Row>, node: string, a: Row, b: Row)
    requires SourceChain(check, chain, node) && CopyOf(check, chain, a) && CopyOf(check, chain, b)
    ensures a.node == b.node == node && a.Sealed() && b.Sealed() && a.seqNo >= 1
    ensures a.id == b.id <==> a.seqNo == b.seqNo
    ensures a.seqNo == b.seqNo ==> a.hash == b.hash
    ensures a.seqNo == b.seqNo - 1 ==> b.prevHash == a.hash
  {
    var i, j := a.seqNo - 1, b.seqNo - 1;
    assert i < j ==> chain[i].id != chain[j].id;
    assert j < i ==> chain[j].id != chain[i].id;
  }

  lemma {:induction false} NoCopyBreaks(check: Row -> bool, rows: seq<Row>, chain: seq<Row>, node: string)
    requires SourceChain(check, chain, node) && forall r | r in rows :: CopyOf(check, chain, r)
    ensures CopyBreaks(check, rows) == {}
  {
    hide SourceChain, CopyOf, IndexOf;
    if rows != [] {
      var front, last := rows[..|rows| - 1], rows[|rows| - 1];
      NoCopyBreaks(check, front, chain, node);
      KeptIsGiven(front);
      assert last in rows;
      Checks(check, chain, last);
      var i := IndexOf(Kept(front), last);
      if i < |Kept(front)| {
        assert Kept(front)[i] in front;
        CopiesAlike(check, chain, node, Kept(front)[i], last);
      }
    }
  }

  lemma Checks(check: Row -> bool, chain: seq<Row>, r: Row)
    requires CopyOf(check, chain, r)
    ensures check(r)
  {
  }

  /** Rows that are copies, one of each seq in a range, are an intact chain. */
  lemma CopiesIntact(check: Row -> bool, rows: set<Row>, chain: seq<Row>, node: string, r: Row)
    requires SourceChain(check, chain, node) && forall o | o in rows && o.node == node :: CopyOf(check, chain, o)
    requires r in rows && r.node == node
    requires forall p | p in rows && p.node == node && p.seqNo < r.seqNo - 1 :: exists q :: q in rows && q.node == node && q.seqNo == r.seqNo - 1
    ensures !Broken(check, rows, r)
  {
    hide SourceChain, CopyOf;
    Checks(check, chain, r);
    CopiesAlike(check, chain, node, r, r);
    forall o | o in rows && o.node == node && o.seqNo == r.seqNo ensures o.id == r.id {
      CopiesAlike(check, chain, node, o, r);
    }
    forall p | Precedes(rows, p, r) ensures Links(p, r) {
      CopiesAlike(check, chain, node, p, r);
      assert p.seqNo == r.seqNo - 1;
    }
  }

  /** A window has no break of its own. */
  lemma WindowVerifies(check: Row -> bool, rows: seq<Row>, chain: seq<Row>, node: string, lo: nat, hi: nat)
    requires SourceChain(check, chain, node) && 1 <= lo <= hi <= |chain| && Window(check, rows, chain, lo, hi)
    ensures BatchCut(check, rows) == None
  {
    hide SourceChain, CopyOf, Broken, Least, Kept, CopyBreaks, Sort, JoinedKey, Faithful, CoversCopies;
    var sorted := Sequenced(rows);
    SortedBatch(rows);
    forall r | r in sorted ensures r.node == node { CopiesAlike(check, chain, node, r, r); }
    JoinedCovers();
    OneNodeFaithful(sorted, node);
    FaithfulVerdict(JoinedKey, check, sorted, [], false);
    NoCopyBreaks(check, sorted, chain, node);
    KeptIsGiven(sorted);
    var kept := RowSet(Kept(sorted));
    forall r | r in kept ensures !Broken(check, kept, r) {
      CopiesAlike(check, chain, node, r, r);
      forall p | p in kept && p.seqNo < r.seqNo - 1 ensures exists q :: q in kept && q.node == node && q.seqNo == r.seqNo - 1 {
        assert Present(rows, r.seqNo - 1);
        var b :| b in rows && b.seqNo == r.seqNo - 1;
        var q := KeptCopy(check, sorted, chain, node, b);
      }
      CopiesIntact(check, kept, chain, node, r);
    }
    assert ChainBreaks(check, kept) == {};
    WholeBreaks(kept, []);
  }

  lemma KeptCopy(check: Row -> bool, sorted: seq<Row>, chain: seq<Row>, node: string, b: Row) returns (q: Row)
    requires SourceChain(check, chain, node) && (forall r | r in sorted :: CopyOf(check, chain, r)) && b in sorted
    ensures q in Kept(sorted) && q.node == node && q.seqNo == b.seqNo
  {
    hide SourceChain, CopyOf, Kept;
    var j :| 0 <= j < |sorted| && sorted[j] == b;
    KeptCovers(sorted, j);
    q :| q in Kept(sorted) && SameRow(q, b);
    KeptIsGiven(sorted);
    CopiesAlike(check, chain, node, q, b);
  }

  /** Nothing in a window clashes with what the receiver holds. */
  lemma WindowFits(check: Row -> bool, t: Table, chain: seq<Row>, node: string, k: nat, r: Row)
    requires SourceChain(check, chain, node) && k <= |chain| && HoldsUpTo(check, t, chain, node, k) && CopyOf(check, chain, r)
    ensures !Clashes(t, r)
  {
    hide SourceChain, Keyed;
    CopiesAlike(check, chain, node, r, r);
    assert chain[r.seqNo - 1].id == r.id;
    if r.id in t {
      assert t[r.id] in t.Values;
      KeyedRow(t, r.id);
      CopiesAlike(check, chain, node, t[r.id], r);
    } else {
      forall p | At(t, p, node, r.seqNo - 1) ensures r.prevHash == LinkTarget(p) {
        CopiesAlike(check, chain, node, p, r);
      }
    }
  }

  lemma KeyedRow(t: Table, id: string)
    requires Keyed(t) && id in t
    ensures t[id].id == id
  {
  }

  lemma WindowUncut(check: Row -> bool, t: Table, chain: seq<Row>, node: string, k: nat, rows: seq<Row>, lo: nat, hi: nat)
    requires SourceChain(check, chain, node) && k <= |chain| && HoldsUpTo(check, t, chain, node, k)
    requires 1 <= lo <= hi <= |chain| && Window(check, rows, chain, lo, hi)
    ensures BatchCut(check, rows) == None && Disputed(check, t, rows) == {}
    ensures Conflict(check, t, rows) == None && !Overlooked(check, t, rows) && Reported(check, t, rows) == 0
  {
    hide SourceChain, CopyOf, Clashes, Least, HoldsUpTo, BatchCut, StoredBelow, Prefix;
    WindowVerifies(check, rows, chain, node, lo, hi);
    var prefix := Prefix(check, rows);
    forall r | r in prefix ensures !IdTaken(prefix, r) && !Clashes(t, r) {
      PrefixGiven(check, rows, r);
      WindowFits(check, t, chain, node, k, r);
      forall o | o in prefix && o.id == r.id ensures o == r {
        PrefixGiven(check, rows, o);
        CopiesAlike(check, chain, node, o, r);
        PrefixOnce(check, rows, o, r);
      }
    }
    forall x | x in rows ensures x.Sealed() {
      CopiesAlike(check, chain, node, x, x);
    }
    assert Disputed(check, t, rows) == {};
  }

  function Max(a: nat, b: nat): nat { if a > b then a else b }

  lemma StoredCopy(check: Row -> bool, chain: seq<Row>, r: Row)
    requires StoreStable(check) && CopyOf(check, chain, r)
    ensures CopyOf(check, chain, AsStored(r)) && AsStored(r).seqNo == r.seqNo && AsStored(r).node == r.node && AsStored(r).id == r.id
  {
    StoredPlace(r);
  }

  lemma RowsAfter(check: Row -> bool, t: Table, chain: seq<Row>, node: string, k: nat, rows: seq<Row>, lo: nat, hi: nat, u: Table, r: Row)
    requires StoreStable(check) && SourceChain(check, chain, node) && k <= |chain| && HoldsUpTo(check, t, chain, node, k)
    requires 1 <= lo <= hi <= |chain| && Window(check, rows, chain, lo, hi)
    requires Extends(t, u, Accepted(check, t, rows)) && r in u.Values
    ensures r in t.Values || r.node == node
    ensures r.node == node ==> CopyOf(check, chain, r) && r.seqNo <= Max(k, hi)
  {
    hide SourceChain, CopyOf, Accepted, Extends, StoreStable, AsStored;
    var added, s := RowSource(t, u, Accepted(check, t, rows), r);
    if added {
      AcceptedIn(check, t, rows, s);
      StoredCopy(check, chain, s);
      CopiesAlike(check, chain, node, s, s);
    }
  }

  lemma IdsAfter(check: Row -> bool, t: Table, chain: seq<Row>, node: string, k: nat, rows: seq<Row>, lo: nat, hi: nat,
                 u: Table, res: IngestResult, i: nat)
    requires SourceChain(check, chain, node) && k <= |chain| && HoldsUpTo(check, t, chain, node, k)
    requires 1 <= lo <= hi <= |chain| && Window(check, rows, chain, lo, hi) && lo <= k + 1
    requires Ingests(check, t, rows, u, res) && i < Max(k, hi)
    ensures chain[i].id in u
  {
    hide SourceChain, Accepted, Reported, Keyed, BatchCut, StoredFrom;
    if i >= k {
      assert Present(rows, i + 1);
      var r :| r in rows && r.seqNo == i + 1;
      CopiesAlike(check, chain, node, r, r);
      WindowUncut(check, t, chain, node, k, rows, lo, hi);
      BelowHeld(check, t, rows, u, res, r);
    }
  }

  /** Whatever window is sent, as long as it does not start beyond the next row:
      no break is reported, the receiver has exactly the rows up to the higher
      end, and no other node is touched. */
  lemma WindowConverges(check: Row -> bool, t: Table, chain: seq<Row>, node: string, k: nat, rows: seq<Row>, lo: nat, hi: nat,
                        u: Table, res: IngestResult)
    requires StoreStable(check) && SourceChain(check, chain, node) && k <= |chain| && HoldsUpTo(check, t, chain, node, k)
    requires 1 <= lo <= hi <= |chain| && Window(check, rows, chain, lo, hi) && lo <= k + 1
    requires Ingests(check, t, rows, u, res)
    ensures res.rejectedFromSeq == 0
    ensures HoldsUpTo(check, u, chain, node, Max(k, hi))
    ensures forall r: Row | r.node != node :: r in u.Values <==> r in t.Values
  {
    hide SourceChain, CopyOf, Accepted, Window, StoreStable, Keyed, Holds, Reported, Overlooked, Conflict, Extends;
    WindowUncut(check, t, chain, node, k, rows, lo, hi);
    IngestExtends(check, t, rows, u, res);
    forall r | r in u.Values
      ensures r in t.Values || r.node == node
      ensures r.node == node ==> CopyOf(check, chain, r) && r.seqNo <= Max(k, hi)
    {
      RowsAfter(check, t, chain, node, k, rows, lo, hi, u, r);
    }
    forall i | 0 <= i < Max(k, hi) ensures chain[i].id in u {
      IdsAfter(check, t, chain, node, k, rows, lo, hi, u, res, i);
    }
    forall i | 0 <= i < |chain| && chain[i].id in u ensures u[chain[i].id].node == node {
      OwnerAfter(check, t, chain, node, k, rows, lo, hi, u, i);
    }
    forall r: Row | r.node != node && r in t.Values ensures r in u.Values { ExtendsKeeps(t, u, Accepted(check, t, rows), r); }
  }

  /** And the call does not fail. */
  lemma WindowTaken(check: Row -> bool, t: Table, chain: seq<Row>, node: string, k: nat, rows: seq<Row>, lo: nat, hi: nat)
    requires SourceChain(check, chain, node) && k <= |chain| && HoldsUpTo(check, t, chain, node, k)
    requires 1 <= lo <= hi <= |chain| && Window(check, rows, chain, lo, hi)
    ensures !Fails(check, t, rows)
  {
    hide SourceChain, HoldsUpTo, Window, Fails, Overlooked;
    WindowUncut(check, t, chain, node, k, rows, lo, hi);
    if Fails(check, t, rows) { FailsOverlooked(check, t, rows); }
  }

  lemma OwnerAfter(check: Row -> bool, t: Table, chain: seq<Row>, node: string, k: nat, rows: seq<Row>, lo: nat, hi: nat, u: Table, i: nat)
    requires StoreStable(check) && SourceChain(check, chain, node) && k <= |chain| && HoldsUpTo(check, t, chain, node, k)
    requires 1 <= lo <= hi <= |chain| && Window(check, rows, chain, lo, hi)
    requires Extends(t, u, Accepted(check, t, rows)) && i < |chain| && chain[i].id in u
    ensures u[chain[i].id].node == node
  {
    hide SourceChain, CopyOf, Accepted, StoreStable, Keyed, AsStored;
    var id := chain[i].id;
    if id !in t {
      var s :| s in Accepted(check, t, rows) && s.id == id;
      AcceptedIn(check, t, rows, s);
      CopiesAlike(check, chain, node, s, s);
      StoredPlace(s);
    }
  }

  /** The receiver's copy verifies. */
  lemma HeldChainVerifies(check: Row -> bool, t: Table, chain: seq<Row>, node: string, k: nat, rows: seq<Row>)
    requires SourceChain(check, chain, node) && k <= |chain| && HoldsUpTo(check, t, chain, node, k)
    requires Distinct(rows) && forall r :: r in rows <==> r in t.Values && r.node == node
    ensures FirstBreak(check, rows, [], false) == None
  {
    hide SourceChain, CopyOf, Broken, Distinct, FirstBreak, Keyed;
    var all := RowSet(rows);
    forall r | r in rows ensures !Broken(check, all, r) {
      CopiesAlike(check, chain, node, r, r);
      forall p | p in all && p.seqNo < r.seqNo - 1 ensures exists q :: q in all && q.node == node && q.seqNo == r.seqNo - 1 {
        CopiesAlike(check, chain, node, p, p);
        var q := HeldAt(check, t, chain, node, k, r.seqNo - 2);
      }
      CopiesIntact(check, all, chain, node, r);
    }
    IntactRows(check, rows);
  }

  lemma HeldAt(check: Row -> bool, t: Table, chain: seq<Row>, node: string, k: nat, i: int) returns (q: Row)
    requires SourceChain(check, chain, node) && k <= |chain| && HoldsUpTo(check, t, chain, node, k) && 0 <= i < k
    ensures q in t.Values && q.node == node && q.seqNo == i + 1
  {
    q := t[chain[i].id];
    assert q in t.Values;
    assert CopyOf(check, chain, q) && CopyOf(check, chain, chain[i]);
    CopiesAlike(check, chain, node, q, chain[i]);
  }

  /** What a sender may have done to its rows meanwhile makes no difference. */
  lemma MarkedCopies(sha: string -> string, chain: seq<Row>, r: Row, at: Time)
    requires Collisionless(sha) && DigestLike(sha) && CopyOf(GoCheck(sha), chain, r)
    ensures FormOf(r) == "2" ==> CopyOf(GoCheck(sha), chain, Redacted(r))
    ensures HashedUnshipped(sha, r) ==> CopyOf(GoCheck(sha), chain, Ship(r, at))
  {
    hide RowOk, HashedUnshipped, DigestLike, Collisionless;
    if FormOf(r) == "2" { RedactKeepsRow(sha, r); }
    if HashedUnshipped(sha, r) { ShipKeepsRow(sha, r, at); }
  }
}
