/** The Go SDK's verifier: one walk over all nodes' rows, ordered by seq, with
    a map per question it has to answer about earlier rows. */
module GoVerifier {
  import opened Text
  import opened Rows
  import opened Sorting
  import opened Verify
  import opened Copies
  import opened Walk
  import opened NodeIndexes

  datatype VerifyResult = VerifyResult(ok: bool, totalRows: nat, firstBreakAt: int)

  /** A result that names no break has firstBreakAt 0. */
  function Report(b: Option<int>, total: nat): VerifyResult
  {
    VerifyResult(b.None?, total, if b.Some? then b.value else 0)
  }

  /******* One copy per row *******/

  const NUL: char := 0 as char

  /** The key as the code joins it. */
  function JoinedKey(r: Row): string { r.node + ([NUL] + r.id) }

  ghost predicate Locates<K>(key: Row -> K, at: map<K, nat>, kept: seq<Row>)
  {
    && (forall k | k in at :: at[k] < |kept| && key(kept[at[k]]) == k)
    && (forall i | 0 <= i < |kept| :: key(kept[i]) in at && at[key(kept[i])] == i)
  }

  lemma LocatesIndex<K(!new)>(key: Row -> K, at: map<K, nat>, kept: seq<Row>, r: Row)
    requires Locates(key, at, kept)
    ensures key(r) !in at ==> IndexBy(key, kept, r) == |kept|
    ensures key(r) in at ==> IndexBy(key, kept, r) == at[key(r)] < |kept|
  {
    hide IndexBy;
    var i := IndexBy(key, kept, r);
    if key(r) in at {
      assert key(kept[at[key(r)]]) == key(r);
      assert i <= at[key(r)];
      assert key(kept[i]) == key(r);
    }
  }

  lemma LocatesAfter<K(!new)>(key: Row -> K, at: map<K, nat>, kept: seq<Row>, r: Row)
    requires Locates(key, at, kept)
    ensures key(r) !in at ==> Locates(key, at[key(r) := |kept|], kept + [r])
    ensures key(r) in at ==> at[key(r)] < |kept| && Locates(key, at, kept[at[key(r)] := r])
  {
  }

  lemma DedupeStart<K(!new)>(key: Row -> K, check: Row -> bool, rows: seq<Row>)
    ensures KeptBy(key, rows[..0]) == [] && Least(CopyBreaksBy(key, check, rows[..0])) == None && Locates(key, map[], [])
  {
  }

  /** One copy of each key. */
  method Dedupe<K(==, !new)>(key: Row -> K, check: Row -> bool, rows: seq<Row>) returns (kept: seq<Row>, dup: Option<int>)
    ensures kept == KeptBy(key, rows) && dup == Least(CopyBreaksBy(key, check, rows))
  {
    hide KeptBy, CopyBreaksBy, IndexBy, Least, Locates;
    kept, dup := [], None;
    var at: map<K, nat> := map[];
    DedupeStart(key, check, rows);
    for n := 0 to |rows|
      invariant kept == KeptBy(key, rows[..n]) && dup == Least(CopyBreaksBy(key, check, rows[..n]))
      invariant Locates(key, at, kept)
    {
      var row := rows[n];
      CopiesStepBy(key, check, rows, n);
      LocatesIndex(key, at, kept, row);
      LocatesAfter(key, at, kept, row);
      var k := key(row);
      if k !in at {
        at := at[k := |kept|];
        kept := kept + [row];
      } else {
        var i := at[k];
        if kept[i].hash == "" && row.hash != "" {
          kept := kept[i := row];
        } else if kept[i].hash != "" && row.hash != "" {
          var broken := row.hash != kept[i].hash || !check(row);
          var seqNo := Min(row.seqNo, kept[i].seqNo);
          if broken && (dup.None? || seqNo < dup.value) {
            dup := Some(seqNo);
          }
        }
      }
    }
    assert rows[..|rows|] == rows;
  }

  /******* The walk *******/

  ghost predicate FirstSealed(first: map<string, int>, rows: seq<Row>)
  {
    && (forall i | 0 <= i < |rows| && rows[i].Sealed() :: rows[i].node in first && first[rows[i].node] <= rows[i].seqNo)
    && (forall n | n in first :: exists i | 0 <= i < |rows| :: rows[i].Sealed() && rows[i].node == n && rows[i].seqNo == first[n])
  }

  ghost predicate LastRows(last: map<string, Row>, rows: seq<Row>, i: nat)
    requires i <= |rows|
  {
    forall n :: var k := LastOn(rows, i, n); (n in last <==> k >= 0) && (k >= 0 ==> last[n] == rows[k])
  }

  ghost predicate SeenSeqs(seen: map<(string, int), string>, rows: seq<Row>, i: nat)
    requires i <= |rows|
  {
    && (forall k | 0 <= k < i && rows[k].Sealed() :: (rows[k].node, rows[k].seqNo) in seen)
    && (forall p | p in seen :: exists k | 0 <= k < i :: rows[k].Sealed() && p == (rows[k].node, rows[k].seqNo) && seen[p] == rows[k].id)
  }

  method FindFirstSealed(sorted: seq<Row>) returns (first: map<string, int>)
    requires InSeqOrder(sorted)
    ensures FirstSealed(first, sorted)
  {
    first := map[];
    for i := 0 to |sorted|
      invariant FirstSealed(first, sorted[..i])
    {
      var row := sorted[i];
      ghost var was := first;
      if row.hash != "" && row.node !in first {
        first := first[row.node := row.seqNo];
      }
      FirstSealedStep(was, first, sorted, i);
    }
    assert sorted[..|sorted|] == sorted;
  }

  lemma FirstSealedStep(was: map<string, int>, first: map<string, int>, rows: seq<Row>, i: nat)
    requires InSeqOrder(rows) && i < |rows| && FirstSealed(was, rows[..i])
    requires var r := rows[i]; first == if r.Sealed() && r.node !in was then was[r.node := r.seqNo] else was
    ensures FirstSealed(first, rows[..i + 1])
  {
    var t := rows[..i + 1];
    forall n | n in first ensures exists k | 0 <= k < |t| :: t[k].Sealed() && t[k].node == n && t[k].seqNo == first[n] {
      if n in was {
        var k :| 0 <= k < i && rows[..i][k].Sealed() && rows[..i][k].node == n && rows[..i][k].seqNo == was[n];
        assert t[k] == rows[..i][k];
      } else {
        assert t[i] == rows[i];
      }
    }
    forall k | 0 <= k < |t| && t[k].Sealed() ensures t[k].node in first && first[t[k].node] <= t[k].seqNo {
      if k < i {
        assert rows[..i][k] == t[k];
      } else if t[k].node in was {
        var j :| 0 <= j < i && rows[..i][j].Sealed() && rows[..i][j].node == t[k].node && rows[..i][j].seqNo == was[t[k].node];
        InOrder(rows, j, i);
      }
    }
  }

  lemma LastRowsStep(last: map<string, Row>, rows: seq<Row>, i: nat)
    requires i < |rows| && LastRows(last, rows, i)
    ensures LastRows(last[rows[i].node := rows[i]], rows, i + 1)
  {
  }

  lemma SeenSeqsStep(seen: map<(string, int), string>, rows: seq<Row>, i: nat)
    requires i < |rows| && SeenSeqs(seen, rows, i)
    ensures rows[i].Sealed() ==> SeenSeqs(seen[(rows[i].node, rows[i].seqNo) := rows[i].id], rows, i + 1)
    ensures !rows[i].Sealed() ==> SeenSeqs(seen, rows, i + 1)
  {
    var r := rows[i];
    var after := if r.Sealed() then seen[(r.node, r.seqNo) := r.id] else seen;
    forall p | p in after
      ensures exists k | 0 <= k < i + 1 :: rows[k].Sealed() && p == (rows[k].node, rows[k].seqNo) && after[p] == rows[k].id
    {
      if p in seen && after[p] == seen[p] {
        var k :| 0 <= k < i && rows[k].Sealed() && p == (rows[k].node, rows[k].seqNo) && seen[p] == rows[k].id;
      }
    }
  }

  /** What the maps answer at row `i` is what decides whether the walk stops. */
  lemma MapsDecide(check: Row -> bool, rows: seq<Row>, i: nat,
                   first: map<string, int>, last: map<string, Row>, seen: map<(string, int), string>)
    requires Distinct(rows) && i < |rows|
    requires FirstSealed(first, rows) && LastRows(last, rows, i) && SeenSeqs(seen, rows, i)
    ensures var r := rows[i]; var key := (r.node, r.seqNo);
      StopsAt(check, rows, i) <==>
        if r.Sealed() then (key in seen && seen[key] != r.id) || !check(r) || (r.node in last && !Links(last[r.node], r))
        else r.node in first && r.seqNo >= first[r.node]
  {
    var r := rows[i];
    var key := (r.node, r.seqNo);
    if key in seen {
      var k :| 0 <= k < i && rows[k].Sealed() && key == (rows[k].node, rows[k].seqNo) && seen[key] == rows[k].id;
      assert !SameRow(rows[k], rows[i]);
    }
    assert SeqSeen(rows, i, r.node, r.seqNo) <==> key in seen;
    assert LinkFails(rows, i) <==> r.node in last && !Links(last[r.node], r);
    if r.node in first {
      var k :| 0 <= k < |rows| && rows[k].Sealed() && rows[k].node == r.node && rows[k].seqNo == first[r.node];
    }
    assert StartedBy(rows, r.node, r.seqNo) <==> r.node in first && r.seqNo >= first[r.node];
  }

  /** walkChains, its result the seq it breaks at. */
  method WalkChains(check: Row -> bool, kept: seq<Row>) returns (res: Option<int>)
    requires Distinct(kept)
    ensures res == Least(ChainBreaks(check, RowSet(kept)))
  {
    hide Least, ChainBreaks, Distinct, InSeqOrder, FirstSealed, LastRows, SeenSeqs, StopsAt, Sort, RowSet, Links;
    var sorted := Sort(BySeqThenNode, kept);
    BySeqThenNodeOrders();
    SortedRows(BySeqThenNode, kept);
    var firstSealed := FindFirstSealed(sorted);
    var last: map<string, Row>, seenSeq: map<(string, int), string> := map[], map[];
    WalkStart(sorted);
    for i := 0 to |sorted|
      invariant LastRows(last, sorted, i) && SeenSeqs(seenSeq, sorted, i)
      invariant forall k | 0 <= k < i :: !StopsAt(check, sorted, k)
    {
      var row := sorted[i];
      MapsDecide(check, sorted, i, firstSealed, last, seenSeq);
      LastRowsStep(last, sorted, i);
      SeenSeqsStep(seenSeq, sorted, i);
      var prev := if row.node in last then Some(last[row.node]) else None;
      last := last[row.node := row];
      if row.hash == "" {
        if row.node in firstSealed && row.seqNo >= firstSealed[row.node] {
          FirstStopIsLeast(check, sorted, i);
          return Some(row.seqNo);
        }
        continue;
      }
      var seqKey := (row.node, row.seqNo);
      if seqKey in seenSeq && seenSeq[seqKey] != row.id {
        FirstStopIsLeast(check, sorted, i);
        return Some(row.seqNo);
      }
      seenSeq := seenSeq[seqKey := row.id];
      if !check(row) {
        FirstStopIsLeast(check, sorted, i);
        return Some(row.seqNo);
      }
      if prev.Some? && !Links(prev.value, row) {
        FirstStopIsLeast(check, sorted, i);
        return Some(row.seqNo);
      }
    }
    FirstStopIsLeast(check, sorted, |sorted|);
    res := None;
  }

  lemma WalkStart(rows: seq<Row>)
    ensures LastRows(map[], rows, 0) && SeenSeqs(map[], rows, 0)
  {
  }

  /******* Checkpoints *******/

  method FindNewest(cps: seq<Checkpoint>) returns (newest: map<string, int>)
    ensures NewestSeqs(newest, cps)
  {
    newest := map[];
    for k := 0 to |cps|
      invariant NewestSeqs(newest, cps[..k])
    {
      var cp := cps[k];
      NewestStep(newest, cps, k);
      if cp.node !in newest || cp.seqNo > newest[cp.node] {
        newest := newest[cp.node := cp.seqNo];
      }
    }
    assert cps[..|cps|] == cps;
  }

  lemma IndexStep(index: map<string, NodeIndex>, nodes: set<string>, rows: set<Row>, r: Row)
    requires IndexesNodes(index, nodes, rows)
    ensures r.node !in nodes ==> IndexesNodes(index, nodes, rows + {r})
    ensures r.node in nodes ==>
      IndexesNodes(index[r.node := if r.node in index then Add(index[r.node], r) else Single(r)], nodes, rows + {r})
  {
    hide Indexes, Add, Single;
    forall n | n in index && n != r.node ensures Indexes(index[n], rows + {r}, n) {
      OthersUnindexed(index[n], rows, r, n);
    }
    if r.node in index {
      AddIndexes(index[r.node], rows, r);
    } else if r.node in nodes {
      SingleIndexes(rows, r);
    }
  }

  method IndexRows(rows: seq<Row>, newest: map<string, int>) returns (index: map<string, NodeIndex>)
    ensures IndexesNodes(index, newest.Keys, RowSet(rows))
  {
    index := map[];
    for k := 0 to |rows|
      invariant IndexesNodes(index, newest.Keys, RowSet(rows[..k]))
    {
      var row := rows[k];
      IndexStep(index, newest.Keys, RowSet(rows[..k]), row);
      assert RowSet(rows[..k + 1]) == RowSet(rows[..k]) + {row};
      if row.node !in newest {
        continue;
      }
      index := index[row.node := if row.node in index then Add(index[row.node], row) else Single(row)];
    }
    assert rows[..|rows|] == rows;
  }

  /** checkpointBreak, its result the lowest seq at which a checkpoint fails. */
  method FindCheckpointBreak(rows: seq<Row>, cps: seq<Checkpoint>, partial: bool) returns (first: Option<int>)
    ensures first == Least(CheckpointBreaks(RowSet(rows), cps, partial))
  {
    hide Least, BreaksAmong, CheckpointBreaks, CheckpointBreak, IndexesNodes, NewestSeqs, Sort, RowSet;
    var newest := FindNewest(cps);
    var index := IndexRows(rows, newest);
    var sorted := Sort(ByNodeThenSeq, cps);
    ByNodeThenSeqOrders();
    SortSorts(ByNodeThenSeq, cps);
    SameElements(sorted, cps);
    AmongAll(RowSet(rows), cps, partial, sorted);
    first := None;
    for k := 0 to |sorted|
      invariant first == Least(BreaksAmong(RowSet(rows), cps, partial, sorted[..k]))
    {
      var cp := sorted[k];
      assert cp in sorted;
      AmongStep(RowSet(rows), cps, partial, sorted, k);
      FoundIsBreak(index, newest, RowSet(rows), cps, partial, cp);
      var found := None;
      if cp.node in index {
        found := Mismatch(index[cp.node], cp, partial);
      } else {
        NewestKnows(newest, cps, cp);
        if !partial && cp.seqNo == newest[cp.node] {
          found := Some(cp.seqNo);
        }
      }
      if found.Some? && (first.None? || found.value < first.value) {
        first := found;
      }
    }
  }

  /******* VerifyChainWithCheckpoints *******/

  /** The result is the order-free verdict, whatever rows, copies of rows and
      checkpoints are given. */
  method VerifyBy<K(==, !new)>(key: Row -> K, check: Row -> bool, rows: seq<Row>, cps: seq<Checkpoint>, partial: bool)
    returns (res: VerifyResult)
    requires CoversCopies(key)
    ensures res == Report(FirstBreakBy(key, check, rows, cps, partial), |rows|)
  {
    hide Least, KeptBy, CopyBreaksBy, ChainBreaks, CheckpointBreaks, RowSet, Distinct, CoversCopies;
    if |rows| == 0 && (partial || |cps| == 0) {
      NothingToVerifyBy(key, check, cps, partial);
      return VerifyResult(true, 0, 0);
    }
    var kept, dup := Dedupe(key, check, rows);
    KeptApart(key, rows);
    var first := WalkChains(check, kept);
    ghost var copies := CopyBreaksBy(key, check, rows);
    LeastUnion(copies, ChainBreaks(check, RowSet(kept)));
    if dup.Some? && (first.None? || dup.value < first.value) {
      first := dup;
    }
    var cp := FindCheckpointBreak(kept, cps, partial);
    LeastUnion(copies + ChainBreaks(check, RowSet(kept)), CheckpointBreaks(RowSet(kept), cps, partial));
    if cp.Some? && (first.None? || cp.value < first.value) {
      first := cp;
    }
    res := Report(first, |rows|);
  }

  lemma NothingToVerifyBy<K>(key: Row -> K, check: Row -> bool, cps: seq<Checkpoint>, partial: bool)
    requires partial || cps == []
    ensures FirstBreakBy(key, check, [], cps, partial) == None
  {
    hide Least, CheckpointBreaks;
    NothingToVerify(check, cps, partial);
    assert KeptBy(key, []) == Kept([]) && CopyBreaksBy(key, check, []) == CopyBreaks(check, []);
  }

  /** The code's verify, over its joined keys. */
  method VerifyChainWithCheckpoints(check: Row -> bool, rows: seq<Row>, cps: seq<Checkpoint>, partial: bool)
    returns (res: VerifyResult)
    ensures res == Report(FirstBreakBy(JoinedKey, check, rows, cps, partial), |rows|)
    ensures Faithful(JoinedKey, rows) ==> res == Report(FirstBreak(check, rows, cps, partial), |rows|)
  {
    hide FirstBreakBy, FirstBreak, Faithful;
    JoinedCovers();
    res := VerifyBy(JoinedKey, check, rows, cps, partial);
    if Faithful(JoinedKey, rows) { FaithfulVerdict(JoinedKey, check, rows, cps, partial); }
  }

  lemma JoinedCovers()
    ensures CoversCopies(JoinedKey)
  {
  }
}
