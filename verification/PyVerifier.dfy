/** The Python SDK's verifier: a dict of rows per node, a separate walk for
    each node, and the lowest of what the walks, the copies and the
    checkpoints report. */
module PyVerifier {
  import opened Text
  import opened Rows
  import opened Sorting
  import opened Verify
  import opened Walk
  import opened NodeIndexes

  datatype ChainVerifyResult = ChainVerifyResult(ok: bool, totalRows: nat, firstBreakAt: Option<int>)

  /******* One copy per row *******/

  type ByNode = map<string, map<string, Row>>

  predicate WellKeyed(byNode: ByNode)
  {
    forall n | n in byNode :: byNode[n] != map[] && forall id | id in byNode[n] :: byNode[n][id].node == n && byNode[n][id].id == id
  }

  predicate Finds(byNode: ByNode, r: Row)
  {
    r.node in byNode && r.id in byNode[r.node] && byNode[r.node][r.id] == r
  }

  ghost predicate Holds(byNode: ByNode, kept: seq<Row>)
  {
    WellKeyed(byNode) && forall r :: r in kept <==> Finds(byNode, r)
  }

  function RowsOf(byNode: ByNode, node: string): map<string, Row>
  {
    if node in byNode then byNode[node] else map[]
  }

  function Put(byNode: ByNode, r: Row): ByNode { byNode[r.node := RowsOf(byNode, r.node)[r.id := r]] }

  lemma PutFinds(byNode: ByNode, r: Row)
    requires WellKeyed(byNode)
    ensures WellKeyed(Put(byNode, r))
    ensures forall o :: Finds(Put(byNode, r), o) <==> if SameRow(o, r) then o == r else Finds(byNode, o)
  {
    assert r.id in Put(byNode, r)[r.node];
  }

  lemma HoldsIndex(byNode: ByNode, kept: seq<Row>, r: Row)
    requires Holds(byNode, kept) && Distinct(kept)
    ensures r.id !in RowsOf(byNode, r.node) ==> IndexOf(kept, r) == |kept|
    ensures r.id in RowsOf(byNode, r.node) ==> IndexOf(kept, r) < |kept| && kept[IndexOf(kept, r)] == byNode[r.node][r.id]
  {
    hide IndexOf, Distinct;
    var i := IndexOf(kept, r);
    assert i < |kept| ==> Finds(byNode, kept[i]);
    if r.id in RowsOf(byNode, r.node) {
      var copy := byNode[r.node][r.id];
      assert Finds(byNode, copy);
      var k :| 0 <= k < |kept| && kept[k] == copy;
      assert i <= k;
    }
  }

  lemma HoldsNew(byNode: ByNode, kept: seq<Row>, r: Row)
    requires Holds(byNode, kept) && r.id !in RowsOf(byNode, r.node)
    ensures Holds(Put(byNode, r), kept + [r])
  {
    hide WellKeyed, Put;
    PutFinds(byNode, r);
  }

  lemma HoldsReplaced(byNode: ByNode, kept: seq<Row>, r: Row, i: nat)
    requires Holds(byNode, kept) && Distinct(kept) && i < |kept| && SameRow(kept[i], r)
    ensures Holds(Put(byNode, r), kept[i := r])
  {
    hide WellKeyed, Put, Finds;
    PutFinds(byNode, r);
    var after := kept[i := r];
    forall o ensures o in after <==> if SameRow(o, r) then o == r else o in kept {
      ReplacedHolds(kept, i, r, o);
    }
  }

  lemma ReplacedHolds(kept: seq<Row>, i: nat, r: Row, o: Row)
    requires Distinct(kept) && i < |kept| && SameRow(kept[i], r)
    ensures o in kept[i := r] <==> if SameRow(o, r) then o == r else o in kept
  {
    var after := kept[i := r];
    assert after[i] == r;
    if o in after && o != r {
      var k :| 0 <= k < |after| && after[k] == o;
      assert kept[k] == o && k != i;
    }
    if o in kept && !SameRow(o, r) {
      var k :| 0 <= k < |kept| && kept[k] == o;
      assert after[k] == o;
    }
  }

  method Dedupe(check: Row -> bool, rows: seq<Row>) returns (byNode: ByNode, dup: Option<int>)
    ensures Holds(byNode, Kept(rows)) && dup == Least(CopyBreaks(check, rows))
  {
    hide Kept, CopyBreaks, IndexOf, Least, Holds, Distinct;
    byNode, dup := map[], None;
    DedupeStart(check, rows);
    for n := 0 to |rows|
      invariant Holds(byNode, Kept(rows[..n])) && dup == Least(CopyBreaks(check, rows[..n]))
    {
      var row := rows[n];
      ghost var kept := Kept(rows[..n]);
      CopiesStep(check, rows, n);
      HoldsIndex(byNode, kept, row);
      var copies := RowsOf(byNode, row.node);
      if row.id !in copies {
        HoldsNew(byNode, kept, row);
        byNode := byNode[row.node := copies[row.id := row]];
      } else if copies[row.id].hash == "" && row.hash != "" {
        HoldsReplaced(byNode, kept, row, IndexOf(kept, row));
        byNode := byNode[row.node := copies[row.id := row]];
      } else if copies[row.id].hash != "" && row.hash != "" {
        var copy := copies[row.id];
        var broken := row.hash != copy.hash || !check(row);
        var seqNo := Min(row.seqNo, copy.seqNo);
        if broken && (dup.None? || seqNo < dup.value) {
          dup := Some(seqNo);
        }
      }
    }
    assert rows[..|rows|] == rows;
  }

  lemma DedupeStart(check: Row -> bool, rows: seq<Row>)
    ensures Holds(map[], Kept(rows[..0])) && Least(CopyBreaks(check, rows[..0])) == None
  {
  }

  /******* One node's walk *******/

  predicate OneNode(rows: seq<Row>)
  {
    forall i, j | 0 <= i < j < |rows| :: rows[i].node == rows[j].node
  }

  method MinSealed(rows: seq<Row>) returns (first: Option<int>)
    requires OneNode(rows)
    ensures forall node, seqNo :: rows != [] && node == rows[0].node ==>
      (StartedBy(rows, node, seqNo) <==> first.Some? && first.value <= seqNo)
  {
    first := None;
    for i := 0 to |rows|
      invariant first.None? ==> forall k | 0 <= k < i :: !rows[k].Sealed()
      invariant first.Some? ==> exists k | 0 <= k < i :: rows[k].Sealed() && rows[k].seqNo == first.value
      invariant first.Some? ==> forall k | 0 <= k < i && rows[k].Sealed() :: first.value <= rows[k].seqNo
    {
      if rows[i].hash != "" && (first.None? || rows[i].seqNo < first.value) {
        first := Some(rows[i].seqNo);
      }
    }
  }

  ghost predicate SeenSeqs(seen: map<int, string>, rows: seq<Row>, i: nat)
    requires i <= |rows|
  {
    && (forall k | 0 <= k < i && rows[k].Sealed() :: rows[k].seqNo in seen)
    && (forall s | s in seen :: exists k | 0 <= k < i :: rows[k].Sealed() && rows[k].seqNo == s && seen[s] == rows[k].id)
  }

  lemma SeenSeqsStep(seen: map<int, string>, rows: seq<Row>, i: nat)
    requires i < |rows| && SeenSeqs(seen, rows, i)
    ensures rows[i].Sealed() ==> SeenSeqs(seen[rows[i].seqNo := rows[i].id], rows, i + 1)
    ensures !rows[i].Sealed() ==> SeenSeqs(seen, rows, i + 1)
  {
    var r := rows[i];
    var after := if r.Sealed() then seen[r.seqNo := r.id] else seen;
    forall s | s in after
      ensures exists k | 0 <= k < i + 1 :: rows[k].Sealed() && rows[k].seqNo == s && after[s] == rows[k].id
    {
      if s in seen && after[s] == seen[s] {
        var k :| 0 <= k < i && rows[k].Sealed() && rows[k].seqNo == s && seen[s] == rows[k].id;
      }
    }
  }

  /** What the walk looks up at row `i` decides whether it stops there. */
  lemma LookupsDecide(check: Row -> bool, rows: seq<Row>, i: nat, first: Option<int>, seen: map<int, string>)
    requires Distinct(rows) && OneNode(rows) && i < |rows| && SeenSeqs(seen, rows, i)
    requires StartedBy(rows, rows[i].node, rows[i].seqNo) <==> first.Some? && first.value <= rows[i].seqNo
    ensures var r := rows[i];
      StopsAt(check, rows, i) <==>
        if r.Sealed() then (r.seqNo in seen && seen[r.seqNo] != r.id) || !check(r) || (i > 0 && !Links(rows[i - 1], r))
        else first.Some? && first.value <= r.seqNo
  {
    hide Links;
    var r := rows[i];
    if r.seqNo in seen {
      var k :| 0 <= k < i && rows[k].Sealed() && rows[k].seqNo == r.seqNo && seen[r.seqNo] == rows[k].id;
      assert rows[k].node == rows[i].node && !SameRow(rows[k], rows[i]);
    }
    assert SeqSeen(rows, i, r.node, r.seqNo) <==> r.seqNo in seen;
    assert LastOn(rows, i, r.node) == i - 1 by {
      if i > 0 { assert rows[i - 1].node == rows[i].node; }
    }
  }

  method NodeBreak(check: Row -> bool, sorted: seq<Row>) returns (res: Option<int>)
    requires Distinct(sorted) && InSeqOrder(sorted) && OneNode(sorted)
    ensures res == Least(ChainBreaks(check, RowSet(sorted)))
  {
    hide Least, ChainBreaks, Distinct, InSeqOrder, SeenSeqs, StopsAt, RowSet, Links, OneNode, StartedBy;
    var firstSealed := MinSealed(sorted);
    var seen: map<int, string> := map[];
    SeenNone(sorted);
    for i := 0 to |sorted|
      invariant SeenSeqs(seen, sorted, i)
      invariant forall k | 0 <= k < i :: !StopsAt(check, sorted, k)
    {
      var row := sorted[i];
      SameNode(sorted, i);
      LookupsDecide(check, sorted, i, firstSealed, seen);
      SeenSeqsStep(seen, sorted, i);
      if row.hash == "" {
        if firstSealed.Some? && row.seqNo >= firstSealed.value {
          FirstStopIsLeast(check, sorted, i);
          return Some(row.seqNo);
        }
        continue;
      }
      if row.seqNo in seen && seen[row.seqNo] != row.id {
        FirstStopIsLeast(check, sorted, i);
        return Some(row.seqNo);
      }
      seen := seen[row.seqNo := row.id];
      if !check(row) {
        FirstStopIsLeast(check, sorted, i);
        return Some(row.seqNo);
      }
      if i > 0 && !Links(sorted[i - 1], row) {
        FirstStopIsLeast(check, sorted, i);
        return Some(row.seqNo);
      }
    }
    FirstStopIsLeast(check, sorted, |sorted|);
    res := None;
  }

  lemma SeenNone(rows: seq<Row>)
    ensures SeenSeqs(map[], rows, 0)
  {
  }

  lemma SameNode(rows: seq<Row>, i: nat)
    requires OneNode(rows) && i < |rows|
    ensures rows[0].node == rows[i].node
  {
  }

  /******* All nodes *******/

  ghost function On(rows: set<Row>, nodes: set<string>): set<Row> { set r | r in rows && r.node in nodes }

  /** Only rows of its own node can break a row. */
  lemma BrokenOnNode(check: Row -> bool, rows: set<Row>, nodes: set<string>, r: Row)
    requires r.node in nodes
    ensures Broken(check, On(rows, nodes), r) <==> Broken(check, rows, r)
  {
    var own := On(rows, nodes);
    assert forall p: Row :: p.node == r.node ==> (p in own <==> p in rows);
    assert forall p :: Precedes(own, p, r) <==> Precedes(rows, p, r);
  }

  lemma BreaksByNode(check: Row -> bool, rows: set<Row>, done: set<string>, node: string)
    ensures Least(ChainBreaks(check, On(rows, done + {node}))) ==
      Lower(Least(ChainBreaks(check, On(rows, done))), Least(ChainBreaks(check, On(rows, {node}))))
  {
    hide Least, Broken;
    var a, b := ChainBreaks(check, On(rows, done)), ChainBreaks(check, On(rows, {node}));
    forall r: Row | r.node in done + {node}
      ensures Broken(check, On(rows, done + {node}), r) == Broken(check, rows, r)
      ensures r.node in done ==> Broken(check, On(rows, done), r) == Broken(check, rows, r)
      ensures r.node == node ==> Broken(check, On(rows, {node}), r) == Broken(check, rows, r)
    {
      BrokenOnNode(check, rows, done + {node}, r);
      if r.node in done { BrokenOnNode(check, rows, done, r); }
      if r.node == node { BrokenOnNode(check, rows, {node}, r); }
    }
    assert ChainBreaks(check, On(rows, done + {node})) == a + b;
    LeastUnion(a, b);
  }

  /** A dict's rows, in any order. */
  method Values(m: map<string, Row>) returns (rows: seq<Row>)
    requires forall id | id in m :: m[id].id == id
    ensures Distinct(rows) && |rows| == |m| && forall r :: r in rows <==> r.id in m && m[r.id] == r
  {
    rows := [];
    var ids := m.Keys;
    while ids != {}
      invariant ids <= m.Keys
      invariant forall r :: r in rows <==> r.id in m.Keys - ids && m[r.id] == r
      invariant Distinct(rows) && |rows| == |m| - |ids|
      decreases |ids|
    {
      var id :| id in ids;
      assert forall r | r in rows :: r.id != id;
      rows := rows + [m[id]];
      ids := ids - {id};
    }
  }

  method NodeRows(byNode: ByNode, node: string, ghost kept: seq<Row>) returns (rows: seq<Row>)
    requires Holds(byNode, kept) && node in byNode
    ensures Distinct(rows) && RowSet(rows) == On(RowSet(kept), {node}) && OneNode(rows) && rows != []
  {
    rows := Values(byNode[node]);
    assert forall r :: r in rows ==> Finds(byNode, r);
    assert forall i | 0 <= i < |rows| :: rows[i] in rows;
  }

  method WalkNodes(check: Row -> bool, byNode: ByNode, ghost kept: seq<Row>) returns (first: Option<int>)
    requires Holds(byNode, kept)
    ensures first == Least(ChainBreaks(check, RowSet(kept)))
  {
    hide Least, ChainBreaks, Distinct, InSeqOrder, OneNode, Holds, Sort, OrdersBySeq;
    first := None;
    BySeqOrders();
    var nodes := byNode.Keys;
    NoNodes(check, byNode, kept);
    while nodes != {}
      invariant nodes <= byNode.Keys
      invariant first == Least(ChainBreaks(check, On(RowSet(kept), byNode.Keys - nodes)))
      decreases |nodes|
    {
      var node :| node in nodes;
      var rows := NodeRows(byNode, node, kept);
      var sorted := Sort(BySeq, rows);
      SortedRows(BySeq, rows);
      SortedOneNode(rows, sorted);
      var found := NodeBreak(check, sorted);
      BreaksByNode(check, RowSet(kept), byNode.Keys - nodes, node);
      assert byNode.Keys - nodes + {node} == byNode.Keys - (nodes - {node});
      if found.Some? && (first.None? || found.value < first.value) {
        first := found;
      }
      nodes := nodes - {node};
    }
  }

  lemma SortedOneNode(rows: seq<Row>, sorted: seq<Row>)
    requires OneNode(rows) && RowSet(sorted) == RowSet(rows)
    ensures OneNode(sorted)
  {
    forall i, j | 0 <= i < j < |sorted| ensures sorted[i].node == sorted[j].node {
      assert sorted[i] in RowSet(rows) && sorted[j] in RowSet(rows);
    }
  }

  lemma NoNodes(check: Row -> bool, byNode: ByNode, kept: seq<Row>)
    requires Holds(byNode, kept)
    ensures Least(ChainBreaks(check, On(RowSet(kept), byNode.Keys - byNode.Keys))) == None
    ensures On(RowSet(kept), byNode.Keys - {}) == RowSet(kept)
  {
    assert forall r :: r in kept ==> Finds(byNode, r);
  }

  /******* Checkpoints *******/

  method FindNewest(cps: seq<Checkpoint>) returns (newest: map<string, int>)
    ensures NewestSeqs(newest, cps)
  {
    newest := map[];
    for k := 0 to |cps|
      invariant NewestSeqs(newest, cps[..k])
    {
      var cp := cps[k];
      NewestStep(newest, cps, k);
      var known := if cp.node in newest then newest[cp.node] else cp.seqNo;
      newest := newest[cp.node := Max(cp.seqNo, known)];
    }
    assert cps[..|cps|] == cps;
  }

  method BuildIndex(rows: seq<Row>) returns (index: NodeIndex)
    requires rows != [] && OneNode(rows)
    ensures Indexes(index, RowSet(rows), rows[0].node)
  {
    index := Single(rows[0]);
    SingleIndexes({}, rows[0]);
    assert RowSet(rows[..1]) == {} + {rows[0]};
    for k := 1 to |rows|
      invariant Indexes(index, RowSet(rows[..k]), rows[0].node)
    {
      AddIndexes(index, RowSet(rows[..k]), rows[k]);
      assert RowSet(rows[..k + 1]) == RowSet(rows[..k]) + {rows[k]};
      index := Add(index, rows[k]);
    }
    assert rows[..|rows|] == rows;
  }

  method IndexNodes(byNode: ByNode, newest: map<string, int>, ghost kept: seq<Row>) returns (index: map<string, NodeIndex>)
    requires Holds(byNode, kept)
    ensures IndexesNodes(index, newest.Keys, RowSet(kept))
  {
    hide Holds, Indexes, Distinct;
    index := map[];
    var nodes := newest.Keys;
    while nodes != {}
      invariant nodes <= newest.Keys && index.Keys <= newest.Keys - nodes
      invariant forall n | n in index :: Indexes(index[n], RowSet(kept), n)
      invariant forall n | n in newest.Keys - nodes && n in byNode :: n in index
      decreases |nodes|
    {
      var node :| node in nodes;
      if node in byNode {
        var rows := NodeRows(byNode, node, kept);
        var built := BuildIndex(rows);
        assert rows[0] in RowSet(rows);
        IndexOnNode(built, RowSet(kept), node);
        index := index[node := built];
      }
      nodes := nodes - {node};
    }
    NodesKnown(byNode, kept);
  }

  lemma IndexOnNode(index: NodeIndex, rows: set<Row>, node: string)
    requires Indexes(index, On(rows, {node}), node)
    ensures Indexes(index, rows, node)
  {
    forall s, r | s in index.bySeq && r in index.bySeq[s] ensures r in rows && r.node == node && r.seqNo == s {
      assert r in On(rows, {node});
    }
  }

  lemma NodesKnown(byNode: ByNode, kept: seq<Row>)
    requires Holds(byNode, kept)
    ensures forall r | r in kept :: r.node in byNode
  {
    assert forall r :: r in kept ==> Finds(byNode, r);
  }

  /** The loop over the checkpoints, which goes on from the break so far. */
  method LowerByCheckpoints(byNode: ByNode, cps: seq<Checkpoint>, partial: bool, before: Option<int>, ghost kept: seq<Row>)
    returns (first: Option<int>)
    requires Holds(byNode, kept)
    ensures first == Lower(before, Least(CheckpointBreaks(RowSet(kept), cps, partial)))
  {
    hide Least, BreaksAmong, CheckpointBreaks, CheckpointBreak, IndexesNodes, NewestSeqs, Sort, RowSet, Holds;
    var newest := FindNewest(cps);
    var index := IndexNodes(byNode, newest, kept);
    var sorted := Sort(ByNodeThenSeq, cps);
    ByNodeThenSeqOrders();
    SortSorts(ByNodeThenSeq, cps);
    SameElements(sorted, cps);
    AmongAll(RowSet(kept), cps, partial, sorted);
    first := before;
    for k := 0 to |sorted|
      invariant first == Lower(before, Least(BreaksAmong(RowSet(kept), cps, partial, sorted[..k])))
    {
      var cp := sorted[k];
      assert cp in sorted;
      AmongStep(RowSet(kept), cps, partial, sorted, k);
      FoundIsBreak(index, newest, RowSet(kept), cps, partial, cp);
      var found := None;
      if cp.node !in index {
        NewestKnows(newest, cps, cp);
        if !partial && cp.seqNo == newest[cp.node] {
          found := Some(cp.seqNo);
        }
      } else {
        found := Mismatch(index[cp.node], cp, partial);
      }
      if found.Some? && (first.None? || found.value < first.value) {
        first := found;
      }
    }
  }

  /******* verify_chain *******/

  /** The result is the same order-free verdict as the Go verifier's. */
  method VerifyChain(check: Row -> bool, rows: seq<Row>, cps: seq<Checkpoint>, partial: bool)
    returns (res: ChainVerifyResult)
    ensures var b := FirstBreak(check, rows, cps, partial); res == ChainVerifyResult(b.None?, |rows|, b)
  {
    hide Least, Kept, CopyBreaks, ChainBreaks, CheckpointBreaks, RowSet, Holds;
    if |rows| == 0 && (partial || |cps| == 0) {
      NothingToVerify(check, cps, partial);
      return ChainVerifyResult(true, 0, None);
    }
    var byNode, dup := Dedupe(check, rows);
    ghost var kept := Kept(rows);
    var first := WalkNodes(check, byNode, kept);
    LeastUnion(CopyBreaks(check, rows), ChainBreaks(check, RowSet(kept)));
    if dup.Some? && (first.None? || dup.value < first.value) {
      first := dup;
    }
    first := LowerByCheckpoints(byNode, cps, partial, first, kept);
    LeastUnion(CopyBreaks(check, rows) + ChainBreaks(check, RowSet(kept)), CheckpointBreaks(RowSet(kept), cps, partial));
    res := ChainVerifyResult(first.None?, |rows|, first);
  }
}
