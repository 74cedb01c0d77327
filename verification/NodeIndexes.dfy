/** One node's rows by seq, as both verifiers index them to look up
    checkpoints. */
module NodeIndexes {
  import opened Text
  import opened Rows
  import opened Sorting
  import opened Verify

  datatype NodeIndex = NodeIndex(bySeq: map<int, seq<Row>>, lowest: int, highest: int)

  function Min(a: int, b: int): int { if a < b then a else b }

  function Max(a: int, b: int): int { if a > b then a else b }

  function RowsAt(bySeq: map<int, seq<Row>>, seqNo: int): seq<Row>
  {
    if seqNo in bySeq then bySeq[seqNo] else []
  }

  function Single(r: Row): NodeIndex { NodeIndex(map[r.seqNo := [r]], r.seqNo, r.seqNo) }

  function Add(n: NodeIndex, r: Row): NodeIndex
  {
    NodeIndex(n.bySeq[r.seqNo := RowsAt(n.bySeq, r.seqNo) + [r]], Min(n.lowest, r.seqNo), Max(n.highest, r.seqNo))
  }

  /** The index holds exactly the node's rows, and knows their range. */
  ghost predicate Indexes(n: NodeIndex, rows: set<Row>, node: string)
  {
    && (forall s :: s in n.bySeq ==> n.bySeq[s] != [])
    && (forall s, r | s in n.bySeq && r in n.bySeq[s] :: r in rows && r.node == node && r.seqNo == s)
    && (forall r | r in rows && r.node == node :: r.seqNo in n.bySeq && r in n.bySeq[r.seqNo])
    && n.lowest in n.bySeq && n.highest in n.bySeq
    && (forall s | s in n.bySeq :: n.lowest <= s <= n.highest)
  }

  lemma SingleIndexes(rows: set<Row>, r: Row)
    requires forall o | o in rows :: o.node != r.node
    ensures Indexes(Single(r), rows + {r}, r.node)
  {
  }

  lemma AddIndexes(n: NodeIndex, rows: set<Row>, r: Row)
    requires Indexes(n, rows, r.node)
    ensures Indexes(Add(n, r), rows + {r}, r.node)
  {
  }

  lemma OthersUnindexed(n: NodeIndex, rows: set<Row>, r: Row, node: string)
    requires Indexes(n, rows, node) && r.node != node
    ensures Indexes(n, rows + {r}, node)
  {
  }

  /** checkpointMismatch, and _checkpoint_break with its first two tests swapped. */
  function Mismatch(n: NodeIndex, cp: Checkpoint, partial: bool): Option<int>
  {
    var at := RowsAt(n.bySeq, cp.seqNo);
    if exists r | r in at :: r.hash == cp.hash then None
    else if at != [] then Some(cp.seqNo)
    else if cp.seqNo > n.highest then (if partial then None else Some(n.highest + 1))
    else if cp.seqNo < n.lowest then (if partial then None else Some(n.lowest))
    else Some(cp.seqNo)
  }

  lemma IndexedSeqs(n: NodeIndex, rows: set<Row>, node: string)
    requires Indexes(n, rows, node)
    ensures Seqs(rows, node) == n.bySeq.Keys
    ensures Least(Seqs(rows, node)) == Some(n.lowest) && Greatest(Seqs(rows, node)) == n.highest
  {
    hide Least, Greatest;
    forall s | s in n.bySeq ensures s in Seqs(rows, node) {
      var r := n.bySeq[s][0];
      assert r in n.bySeq[s] && r in rows && r.seqNo == s;
    }
    assert Seqs(rows, node) == n.bySeq.Keys;
    LeastIs(Seqs(rows, node), n.lowest);
  }

  lemma MismatchIsBreak(n: NodeIndex, rows: set<Row>, cps: seq<Checkpoint>, partial: bool, cp: Checkpoint)
    requires Indexes(n, rows, cp.node)
    ensures Mismatch(n, cp, partial) == CheckpointBreak(rows, cps, partial, cp)
  {
    hide Least, Greatest;
    IndexedSeqs(n, rows, cp.node);
    var at := RowsAt(n.bySeq, cp.seqNo);
    if Witnessed(rows, cp) {
      var r :| r in rows && r.node == cp.node && r.seqNo == cp.seqNo && r.hash == cp.hash;
      assert r in at;
    }
  }

  /******* Going through the checkpoints *******/

  /** The breaks that the checkpoints in `some` find, out of all of `cps`. */
  ghost function BreaksAmong(rows: set<Row>, cps: seq<Checkpoint>, partial: bool, some: seq<Checkpoint>): set<int>
  {
    set cp | cp in some && CheckpointBreak(rows, cps, partial, cp).Some? :: CheckpointBreak(rows, cps, partial, cp).value
  }

  lemma AmongStep(rows: set<Row>, cps: seq<Checkpoint>, partial: bool, some: seq<Checkpoint>, k: nat)
    requires k < |some|
    ensures Least(BreaksAmong(rows, cps, partial, some[..k + 1])) ==
      Lower(Least(BreaksAmong(rows, cps, partial, some[..k])), CheckpointBreak(rows, cps, partial, some[k]))
  {
    hide Least, CheckpointBreak;
    var before, after := BreaksAmong(rows, cps, partial, some[..k]), BreaksAmong(rows, cps, partial, some[..k + 1]);
    var b := CheckpointBreak(rows, cps, partial, some[k]);
    assert some[..k + 1] == some[..k] + [some[k]];
    if b.Some? {
      assert after == before + {b.value};
      LeastUnion(before, {b.value});
      LeastIs({b.value}, b.value);
    } else {
      assert after == before;
    }
  }

  lemma AmongAll(rows: set<Row>, cps: seq<Checkpoint>, partial: bool, some: seq<Checkpoint>)
    requires multiset(some) == multiset(cps)
    ensures BreaksAmong(rows, cps, partial, some[..|some|]) == CheckpointBreaks(rows, cps, partial)
    ensures Least(BreaksAmong(rows, cps, partial, some[..0])) == None
  {
    hide CheckpointBreak;
    SameElements(some, cps);
    assert some[..|some|] == some;
  }

  ghost predicate NewestSeqs(newest: map<string, int>, cps: seq<Checkpoint>)
  {
    && (forall c | c in cps :: c.node in newest && c.seqNo <= newest[c.node])
    && (forall n | n in newest :: exists c | c in cps :: c.node == n && c.seqNo == newest[n])
  }

  lemma NewestStep(newest: map<string, int>, cps: seq<Checkpoint>, k: nat)
    requires k < |cps| && NewestSeqs(newest, cps[..k])
    ensures var c := cps[k];
      NewestSeqs(if c.node !in newest || c.seqNo > newest[c.node] then newest[c.node := c.seqNo] else newest, cps[..k + 1])
  {
    assert cps[..k + 1] == cps[..k] + [cps[k]];
  }

  /** A node that has a checkpoint has an index exactly when it has rows. */
  ghost predicate IndexesNodes(index: map<string, NodeIndex>, nodes: set<string>, rows: set<Row>)
  {
    && index.Keys <= nodes
    && (forall n | n in index :: Indexes(index[n], rows, n))
    && (forall r | r in rows && r.node in nodes :: r.node in index)
  }

  /** What the loop finds for one checkpoint. */
  lemma FoundIsBreak(index: map<string, NodeIndex>, newest: map<string, int>, rows: set<Row>, cps: seq<Checkpoint>,
                     partial: bool, cp: Checkpoint)
    requires cp in cps && NewestSeqs(newest, cps) && IndexesNodes(index, newest.Keys, rows)
    ensures CheckpointBreak(rows, cps, partial, cp) ==
      if cp.node in index then Mismatch(index[cp.node], cp, partial)
      else if !partial && cp.seqNo == newest[cp.node] then Some(cp.seqNo)
      else None
  {
    hide Least, Greatest, Indexes, Mismatch;
    if cp.node in index {
      MismatchIsBreak(index[cp.node], rows, cps, partial, cp);
    } else {
      assert Seqs(rows, cp.node) == {};
      var c :| c in cps && c.node == cp.node && c.seqNo == newest[cp.node];
    }
  }

  predicate ByNodeThenSeq(a: Checkpoint, b: Checkpoint)
  {
    Less(a.node, b.node) || (a.node == b.node && a.seqNo <= b.seqNo)
  }

  lemma ByNodeThenSeqOrders()
    ensures TotalOrder(ByNodeThenSeq)
  {
    hide Less;
    forall a: Checkpoint, b: Checkpoint ensures ByNodeThenSeq(a, b) || ByNodeThenSeq(b, a) {
      if a.node != b.node { LessConnected(a.node, b.node); }
    }
    forall a: Checkpoint, b: Checkpoint, c: Checkpoint | ByNodeThenSeq(a, b) && ByNodeThenSeq(b, c)
      ensures ByNodeThenSeq(a, c)
    {
      if Less(a.node, b.node) && Less(b.node, c.node) { LessTransitive(a.node, b.node, c.node); }
    }
  }

  lemma NewestKnows(newest: map<string, int>, cps: seq<Checkpoint>, cp: Checkpoint)
    requires NewestSeqs(newest, cps) && cp in cps
    ensures cp.node in newest
  {
  }
}
