/** The ingest code: sort and verify the batch, look each row up in the store,
    cut, insert. */
module Ingest {
  import opened Text
  import opened Rows
  import opened RowLaws
  import opened Sorting
  import opened Verify
  import opened VerifyLaws
  import opened Walk
  import opened Copies
  import opened GoVerifier
  import opened Store
  import opened SqlStore
  import opened IngestSpec
  import opened IngestLaws

  /******* verifiedPrefix *******/

  predicate KeyAmong(prefix: seq<Row>, k: CopyKey) { exists r | r in prefix :: KeyOf(r) == k }

  lemma FirstLater(sorted: seq<Row>, i: nat, r: Row)
    requires IsFirst(sorted, i, r)
    ensures IsFirst(sorted, i + 1, r)
  {
    hide FirstWithKey;
    var n: nat :| n < i && FirstWithKey(sorted, n, r);
  }

  lemma KeyAmongMore(prefix: seq<Row>, r: Row, k: CopyKey)
    requires KeyAmong(prefix, k) || k == KeyOf(r)
    ensures KeyAmong(prefix + [r], k)
  {
    hide KeyOf;
    if KeyAmong(prefix, k) {
      var o :| o in prefix && KeyOf(o) == k;
      assert o in prefix + [r];
    } else {
      assert r in prefix + [r];
    }
  }

  ghost predicate Firsts(sorted: seq<Row>, i: nat, cut: Option<int>, prefix: seq<Row>, seen: set<CopyKey>)
    requires i <= |sorted|
  {
    && (forall r | r in prefix :: Below(r, cut) && IsFirst(sorted, i, r))
    && (forall n | 0 <= n < i && sorted[n].Sealed() && Below(sorted[n], cut) :: KeyOf(sorted[n]) in seen)
    && (forall k | k in seen :: KeyAmong(prefix, k))
    && (forall r | r in prefix :: KeyOf(r) in seen)
    && (forall a, b | 0 <= a < b < |prefix| :: KeyOf(prefix[a]) != KeyOf(prefix[b]))
    && InSeqOrder(prefix) && (forall r | r in prefix && i < |sorted| :: r.seqNo <= sorted[i].seqNo)
  }

  lemma FirstsStart(sorted: seq<Row>, cut: Option<int>)
    ensures Firsts(sorted, 0, cut, [], {})
  {
  }

  lemma FirstsSkip(sorted: seq<Row>, i: nat, cut: Option<int>, prefix: seq<Row>, seen: set<CopyKey>)
    requires InSeqOrder(sorted) && i < |sorted| && Firsts(sorted, i, cut, prefix, seen)
    requires !Below(sorted[i], cut) || !sorted[i].Sealed() || KeyOf(sorted[i]) in seen
    ensures Firsts(sorted, i + 1, cut, prefix, seen)
  {
    hide IsFirst, KeyOf;
    if i + 1 < |sorted| { InOrder(sorted, i, i + 1); }
    forall r | r in prefix ensures IsFirst(sorted, i + 1, r) { FirstLater(sorted, i, r); }
  }

  lemma TakenIsFirst(sorted: seq<Row>, i: nat, cut: Option<int>, prefix: seq<Row>, seen: set<CopyKey>)
    requires InSeqOrder(sorted) && i < |sorted| && Firsts(sorted, i, cut, prefix, seen)
    requires Below(sorted[i], cut) && sorted[i].Sealed() && KeyOf(sorted[i]) !in seen
    ensures IsFirst(sorted, i + 1, sorted[i])
  {
    hide KeyOf;
    forall j | 0 <= j < i && sorted[j].Sealed() ensures KeyOf(sorted[j]) != KeyOf(sorted[i]) {
      InOrder(sorted, j, i);
    }
    assert FirstWithKey(sorted, i, sorted[i]);
  }

  lemma FirstsTake(sorted: seq<Row>, i: nat, cut: Option<int>, prefix: seq<Row>, seen: set<CopyKey>)
    requires InSeqOrder(sorted) && i < |sorted| && Firsts(sorted, i, cut, prefix, seen)
    requires Below(sorted[i], cut) && sorted[i].Sealed() && KeyOf(sorted[i]) !in seen
    ensures Firsts(sorted, i + 1, cut, prefix + [sorted[i]], seen + {KeyOf(sorted[i])})
  {
    hide KeyOf, IsFirst, KeyAmong, Below;
    var r, after := sorted[i], prefix + [sorted[i]];
    if i + 1 < |sorted| { InOrder(sorted, i, i + 1); }
    TakenIsFirst(sorted, i, cut, prefix, seen);
    forall o | o in after ensures Below(o, cut) && IsFirst(sorted, i + 1, o) {
      if o != r { FirstLater(sorted, i, o); }
    }
    forall k | k in seen + {KeyOf(r)} ensures KeyAmong(after, k) { KeyAmongMore(prefix, r, k); }
  }

  /** What the loop collects is the prefix. */
  lemma FirstsArePrefix(check: Row -> bool, rows: seq<Row>, prefix: seq<Row>, seen: set<CopyKey>)
    requires |Sequenced(rows)| == |rows| && Firsts(Sequenced(rows), |rows|, BatchCut(check, rows), prefix, seen)
    ensures RowSet(prefix) == Prefix(check, rows) && Distinct(prefix)
  {
    hide BatchCut, Sequenced, InSeqOrder, FirstWithKey, KeyOf;
    var sorted, cut := Sequenced(rows), BatchCut(check, rows);
    forall r | r in prefix ensures InPrefix(check, rows, r) { FirstIsGiven(sorted, |sorted|, r); }
    forall k | k in Prefix(check, rows) ensures k in prefix {
      var n := PrefixAt(check, rows, k);
      assert KeyAmong(prefix, KeyOf(k));
      var r :| r in prefix && KeyOf(r) == KeyOf(k);
      PrefixOnce(check, rows, r, k);
    }
    forall a, b | 0 <= a < b < |prefix| ensures !SameRow(prefix[a], prefix[b]) {
      assert prefix[a] in prefix && prefix[b] in prefix;
      if SameRow(prefix[a], prefix[b]) { PrefixApart(check, rows, prefix[a], prefix[b]); }
    }
  }

  lemma FirstIsGiven(sorted: seq<Row>, i: nat, r: Row)
    requires IsFirst(sorted, i, r)
    ensures r in sorted
  {
    var n: nat :| n < i && FirstWithKey(sorted, n, r);
  }

  method VerifiedPrefix(check: Row -> bool, rows: seq<Row>) returns (prefix: seq<Row>, rejectedFromSeq: int)
    ensures RowSet(prefix) == Prefix(check, rows) && Distinct(prefix) && InSeqOrder(prefix)
    ensures rejectedFromSeq == CutSeq(BatchCut(check, rows))
  {
    hide Firsts, InSeqOrder, Sort, FirstBreak, FirstBreakBy, Prefix, RowSet, Distinct, Faithful;
    var sorted := Sort(BySeq, rows);
    SortedBatch(rows);
    SortedLength(rows);
    var res := VerifyChainWithCheckpoints(check, sorted, [], false);
    ghost var cut := BatchCut(check, rows);
    prefix := [];
    var seen: set<CopyKey> := {};
    FirstsStart(sorted, cut);
    for i := 0 to |sorted|
      invariant Firsts(sorted, i, cut, prefix, seen)
    {
      var row := sorted[i];
      if !res.ok && row.seqNo >= res.firstBreakAt {
        FirstsSkip(sorted, i, cut, prefix, seen);
        continue;
      }
      var key := KeyOf(row);
      if row.hash != "" && key !in seen {
        FirstsTake(sorted, i, cut, prefix, seen);
        seen := seen + {key};
        prefix := prefix + [row];
      } else {
        FirstsSkip(sorted, i, cut, prefix, seen);
      }
    }
    FirstsArePrefix(check, rows, prefix, seen);
    FirstsOrdered(sorted, cut, prefix, seen);
    rejectedFromSeq := res.firstBreakAt;
  }

  lemma SortedLength(rows: seq<Row>)
    ensures |Sort(BySeq, rows)| == |rows|
  {
    BySeqOrders();
    SortSorts(BySeq, rows);
    SameElements(Sort(BySeq, rows), rows);
  }

  lemma FirstsOrdered(sorted: seq<Row>, cut: Option<int>, prefix: seq<Row>, seen: set<CopyKey>)
    requires Firsts(sorted, |sorted|, cut, prefix, seen)
    ensures InSeqOrder(prefix)
  {
  }

  /******* skippedUnsealed *******/

  method SkippedUnsealed(rows: seq<Row>, rejectedFromSeq: int) returns (out: seq<Row>)
    ensures RowSet(out) == set r | r in rows && !r.Sealed() && Before(r, rejectedFromSeq)
  {
    out := [];
    for i := 0 to |rows|
      invariant forall r :: r in out <==> r in rows[..i] && !r.Sealed() && Before(r, rejectedFromSeq)
    {
      var r := rows[i];
      if r.hash == "" && (rejectedFromSeq == 0 || r.seqNo < rejectedFromSeq) {
        out := out + [r];
      }
      assert rows[..i + 1] == rows[..i] + [r];
    }
    assert rows[..|rows|] == rows;
  }

  /******* storedConflict *******/

  method SealedBelow(store: SqliteStore, node: string, seqNo: int) returns (found: bool)
    requires Keyed(store.table)
    ensures found <==> exists o :: o in store.table.Values && o.node == node && o.Sealed() && o.seqNo < seqNo
  {
    hide Keyed;
    var t := store.table;
    var left := t.Keys;
    ScanEnds(t);
    while left != {}
      invariant left <= t.Keys
      invariant forall r | Scanned(t, left, r) :: !(r.node == node && r.Sealed() && r.seqNo < seqNo)
      decreases |left|
    {
      var id :| id in left;
      ScanStep(t, left, id);
      if t[id].node == node && t[id].seqNo < seqNo && t[id].hash != "" {
        assert t[id] in t.Values;
        return true;
      }
      left := left - {id};
    }
    found := false;
  }

  method AtSeq(store: SqliteStore, node: string, seqNo: int) returns (found: Option<Row>)
    requires Keyed(store.table)
    ensures found.Some? ==> At(store.table, found.value, node, seqNo)
    ensures forall o | At(store.table, o, node, seqNo) :: found == Some(o)
  {
    var t := store.table;
    var left := t.Keys;
    ScanEnds(t);
    while left != {}
      invariant left <= t.Keys
      invariant forall r | Scanned(t, left, r) :: !(r.node == node && r.seqNo == seqNo)
      decreases |left|
    {
      var id :| id in left;
      ScanStep(t, left, id);
      if t[id].node == node && t[id].seqNo == seqNo {
        assert t[id] in t.Values;
        return Some(t[id]);
      }
      left := left - {id};
    }
    found := None;
  }

  ghost predicate IdSeen(ordered: seq<Row>, i: nat, id: string)
    requires i <= |ordered|
  {
    exists j | 0 <= j < i :: ordered[j].Sealed() && ordered[j].id == id
  }

  ghost predicate ConflictAt(t: Table, ordered: seq<Row>, i: nat)
    requires i < |ordered|
  {
    var r := ordered[i];
    if r.Sealed() then IdSeen(ordered, i, r.id) || Clashes(t, r) else StoredBelow(t, r)
  }

  /** The order the rows are looked up in: one copy of each sealed row. */
  ghost predicate LookupOrder(ordered: seq<Row>, prefix: set<Row>, skipped: set<Row>)
  {
    && Sorted(BySeqThenNode, ordered)
    && (forall r :: r in ordered <==> r in prefix || r in skipped)
    && (forall r | r in prefix :: r.Sealed()) && (forall r | r in skipped :: !r.Sealed())
    && (forall i, j | 0 <= i < j < |ordered| && ordered[i].Sealed() && ordered[j].Sealed() :: !SameRow(ordered[i], ordered[j]))
  }

  lemma SameSpot(a: Row, b: Row)
    requires BySeqThenNode(a, b) && BySeqThenNode(b, a)
    ensures a.seqNo == b.seqNo && a.node == b.node
  {
    if a.node != b.node { LessConnected(a.node, b.node); }
  }

  lemma IdSeenIsTaken(ordered: seq<Row>, prefix: set<Row>, skipped: set<Row>, i: nat)
    requires LookupOrder(ordered, prefix, skipped) && i < |ordered| && ordered[i].Sealed()
    ensures IdSeen(ordered, i, ordered[i].id) <==> IdTaken(prefix, ordered[i])
  {
    hide BySeqThenNode;
    var r := ordered[i];
    if IdSeen(ordered, i, r.id) {
      var j :| 0 <= j < i && ordered[j].Sealed() && ordered[j].id == r.id;
      assert ordered[j] in ordered && ordered[j] in prefix;
      assert !SameRow(ordered[j], ordered[i]);
      assert BySeqThenNode(ordered[j], ordered[i]);
    }
    if IdTaken(prefix, r) {
      var o :| o in prefix && o.id == r.id && o != r && BySeqThenNode(o, r);
      var j :| 0 <= j < |ordered| && ordered[j] == o;
      if j > i {
        SameSpot(ordered[i], ordered[j]);
      }
    }
  }

  lemma ConflictAtIs(t: Table, ordered: seq<Row>, prefix: set<Row>, skipped: set<Row>, i: nat)
    requires LookupOrder(ordered, prefix, skipped) && i < |ordered|
    ensures var r := ordered[i];
      ConflictAt(t, ordered, i) <==> (r in prefix && (IdTaken(prefix, r) || Clashes(t, r))) || (r in skipped && StoredBelow(t, r))
  {
    hide Clashes, IdSeen, IdTaken, StoredBelow;
    assert ordered[i] in ordered;
    if ordered[i].Sealed() { IdSeenIsTaken(ordered, prefix, skipped, i); }
  }

  /** The first row found in conflict is at the lowest seq in conflict. */
  lemma FirstConflictIsLeast(t: Table, ordered: seq<Row>, prefix: set<Row>, skipped: set<Row>, i: nat)
    requires LookupOrder(ordered, prefix, skipped) && i <= |ordered|
    requires forall k | 0 <= k < i :: !ConflictAt(t, ordered, k)
    requires i < |ordered| ==> ConflictAt(t, ordered, i)
    ensures Least(ConflictSeqs(t, prefix, skipped)) == if i < |ordered| then Some(ordered[i].seqNo) else None
  {
    hide ConflictAt, Clashes, IdTaken, StoredBelow, Least;
    var seqs := ConflictSeqs(t, prefix, skipped);
    forall x | x in seqs ensures i < |ordered| && ordered[i].seqNo <= x {
      var r: Row :| r.seqNo == x && ((r in prefix && (IdTaken(prefix, r) || Clashes(t, r))) || (r in skipped && StoredBelow(t, r)));
      var k :| 0 <= k < |ordered| && ordered[k] == r;
      ConflictAtIs(t, ordered, prefix, skipped, k);
      assert i <= k;
      SortedSeqs(ordered, i, k);
    }
    if i < |ordered| {
      ConflictAtIs(t, ordered, prefix, skipped, i);
      LeastIs(seqs, ordered[i].seqNo);
    }
  }

  lemma SortedSeqs(ordered: seq<Row>, i: nat, k: nat)
    requires Sorted(BySeqThenNode, ordered) && i <= k < |ordered|
    ensures ordered[i].seqNo <= ordered[k].seqNo
  {
    assert i < k ==> BySeqThenNode(ordered[i], ordered[k]);
  }

  predicate ApartIfSealed(a: Row, b: Row) { !(a.Sealed() && b.Sealed() && SameRow(a, b)) }

  lemma SortedLookups(prefix: seq<Row>, unsealed: seq<Row>)
    requires Distinct(prefix) && (forall r | r in prefix :: r.Sealed()) && (forall r | r in unsealed :: !r.Sealed())
    ensures LookupOrder(Sort(BySeqThenNode, prefix + unsealed), RowSet(prefix), RowSet(unsealed))
  {
    hide BySeqThenNode, Sort;
    var all := prefix + unsealed;
    forall i, j | 0 <= i < j < |all| ensures ApartIfSealed(all[i], all[j]) && ApartIfSealed(all[j], all[i]) {
      if j >= |prefix| { assert all[j] in unsealed; }
    }
    BySeqThenNodeOrders();
    SortSorts(BySeqThenNode, all);
    SortKeepsPairwise(BySeqThenNode, ApartIfSealed, all);
    var ordered := Sort(BySeqThenNode, all);
    forall i, j | 0 <= i < j < |ordered| && ordered[i].Sealed() && ordered[j].Sealed() ensures !SameRow(ordered[i], ordered[j]) {
      assert ApartIfSealed(ordered[i], ordered[j]);
    }
  }

  ghost predicate SeenIds(seen: map<string, Row>, ordered: seq<Row>, i: nat)
    requires i <= |ordered|
  {
    forall id :: id in seen <==> IdSeen(ordered, i, id)
  }

  lemma SeenIdsStep(seen: map<string, Row>, ordered: seq<Row>, i: nat)
    requires i < |ordered| && SeenIds(seen, ordered, i)
    ensures ordered[i].Sealed() ==> SeenIds(seen[ordered[i].id := ordered[i]], ordered, i + 1)
    ensures !ordered[i].Sealed() ==> SeenIds(seen, ordered, i + 1)
  {
    forall id ensures IdSeen(ordered, i + 1, id) <==> IdSeen(ordered, i, id) || (ordered[i].Sealed() && id == ordered[i].id) {
      if IdSeen(ordered, i + 1, id) {
        var j :| 0 <= j < i + 1 && ordered[j].Sealed() && ordered[j].id == id;
      }
    }
  }

  /** Whether a sealed row clashes with the store, by the lookups of the loop. */
  method LooksUpClash(store: SqliteStore, row: Row) returns (clash: bool)
    requires Keyed(store.table)
    ensures clash <==> Clashes(store.table, row)
  {
    hide Keyed;
    if row.id in store.table {
      return store.table[row.id].hash != row.hash;
    }
    var other := AtSeq(store, row.node, row.seqNo);
    if other.Some? {
      return true;
    }
    var before := AtSeq(store, row.node, row.seqNo - 1);
    if before.Some? && row.prevHash != (if before.value.hash != "" then before.value.hash else GENESIS) {
      assert row.prevHash != LinkTarget(before.value);
      return true;
    }
    var after := AtSeq(store, row.node, row.seqNo + 1);
    clash := after.Some? && after.value.prevHash != row.hash;
  }

  /** 0 when no row conflicts. */
  method StoredConflict(store: SqliteStore, prefix: seq<Row>, unsealed: seq<Row>) returns (seqNo: int)
    requires Keyed(store.table)
    requires Distinct(prefix) && (forall r | r in prefix :: r.Sealed()) && (forall r | r in unsealed :: !r.Sealed())
    ensures seqNo == CutSeq(Least(ConflictSeqs(store.table, RowSet(prefix), RowSet(unsealed))))
  {
    hide Keyed, Sort, LookupOrder, ConflictSeqs, Least, Clashes, IdSeen, SeenIds, RowSet;
    var ordered := Sort(BySeqThenNode, prefix + unsealed);
    SortedLookups(prefix, unsealed);
    var seen: map<string, Row> := map[];
    NoIdsSeen(ordered);
    for i := 0 to |ordered|
      invariant SeenIds(seen, ordered, i)
      invariant forall k | 0 <= k < i :: !ConflictAt(store.table, ordered, k)
    {
      var row := ordered[i];
      SeenIdsStep(seen, ordered, i);
      IdLookup(seen, ordered, i, row.id);
      if row.hash == "" {
        var below := SealedBelow(store, row.node, row.seqNo);
        if below {
          FirstConflictIsLeast(store.table, ordered, RowSet(prefix), RowSet(unsealed), i);
          return row.seqNo;
        }
        continue;
      }
      if row.id in seen {
        FirstConflictIsLeast(store.table, ordered, RowSet(prefix), RowSet(unsealed), i);
        return row.seqNo;
      }
      seen := seen[row.id := row];
      var clash := LooksUpClash(store, row);
      if clash {
        FirstConflictIsLeast(store.table, ordered, RowSet(prefix), RowSet(unsealed), i);
        return row.seqNo;
      }
    }
    FirstConflictIsLeast(store.table, ordered, RowSet(prefix), RowSet(unsealed), |ordered|);
    seqNo := 0;
  }

  lemma NoIdsSeen(ordered: seq<Row>)
    ensures SeenIds(map[], ordered, 0)
  {
  }

  lemma IdLookup(seen: map<string, Row>, ordered: seq<Row>, i: nat, id: string)
    requires i <= |ordered| && SeenIds(seen, ordered, i)
    ensures id in seen <==> IdSeen(ordered, i, id)
  {
  }

  /******* ingestPrefix and ingestReplicatedTx *******/

  lemma {:induction false} SetSize(rows: seq<Row>)
    requires Distinct(rows)
    ensures |RowSet(rows)| == |rows|
  {
    if rows != [] {
      var front, last := rows[..|rows| - 1], rows[|rows| - 1];
      SetSize(front);
      assert rows == front + [last];
      assert RowSet(rows) == RowSet(front) + {last};
      assert last !in RowSet(front);
    }
  }

  method BelowSeq(prefix: seq<Row>, seqNo: int) returns (kept: seq<Row>)
    requires Distinct(prefix)
    ensures Distinct(kept) && forall r :: r in kept <==> r in prefix && r.seqNo < seqNo
  {
    kept := [];
    for i := 0 to |prefix|
      invariant Distinct(kept) && forall r :: r in kept <==> r in prefix[..i] && r.seqNo < seqNo
    {
      assert prefix[..i + 1] == prefix[..i] + [prefix[i]];
      assert forall r | r in prefix[..i] :: !SameRow(r, prefix[i]);
      if prefix[i].seqNo < seqNo {
        kept := kept + [prefix[i]];
      }
    }
    assert prefix[..|prefix|] == prefix;
  }

  /** The rows still to insert find their place free, or their copy stored. */
  ghost predicate Insertable(t: Table, accepted: seq<Row>)
  {
    && Distinct(accepted)
    && (forall r | r in accepted && r.id in t :: t[r.id].hash == r.hash)
    && (forall r | r in accepted && r.id !in t :: forall o | o in t.Values && o.node == r.node :: o.seqNo != r.seqNo)
    && (forall i, j | 0 <= i < j < |accepted| ::
          accepted[i].id != accepted[j].id && !(accepted[i].node == accepted[j].node && accepted[i].seqNo == accepted[j].seqNo))
  }

  lemma PlaceFree(t: Table, u: Table, accepted: seq<Row>, i: nat)
    requires Keyed(u) && Insertable(t, accepted) && i < |accepted| && Holds(t, u, RowSet(accepted[..i])) && accepted[i].id !in t
    ensures !Conflicts(u, accepted[i])
  {
    hide AsStored, Distinct, Keyed, StoredFrom;
    var r := accepted[i];
    assert r in accepted;
    forall id | id in u ensures id != r.id && !(u[id].node == r.node && u[id].seqNo == r.seqNo) {
      if id in t {
        assert t[id] in t.Values;
      } else {
        var s := NewSource(t, u, RowSet(accepted[..i]), id);
        var j :| 0 <= j < i && accepted[j] == s;
        StoredPlace(s);
      }
    }
  }

  lemma InsertNext(t: Table, u: Table, accepted: seq<Row>, i: nat)
    requires Keyed(u) && Insertable(t, accepted) && i < |accepted| && Holds(t, u, RowSet(accepted[..i]))
    ensures Conflicts(u, accepted[i]) ==> accepted[i].id in u && u[accepted[i].id].hash == accepted[i].hash
  {
    hide AsStored, Keyed, Distinct, StoredFrom, Conflicts;
    assert accepted[i] in accepted;
    if accepted[i].id !in t { PlaceFree(t, u, accepted, i); }
  }

  lemma InsertKeepsKeyed(t: Table, r: Row)
    requires Keyed(t)
    ensures Keyed(InsertRow(t, r))
  {
    if !Conflicts(t, r) {
      StoredPlace(r);
      AddedRow(t, AsStored(r));
    }
  }

  lemma StoredFromMore(accepted: set<Row>, more: set<Row>, row: Row)
    requires StoredFrom(accepted, row)
    ensures StoredFrom(accepted + more, row)
  {
    hide AsStored;
    var r :| r in accepted && row == AsStored(r);
    assert r in accepted + more;
  }

  lemma HoldsNothing(t: Table)
    ensures Holds(t, t, RowSet([]))
  {
  }

  lemma HoldsHeld(t: Table, u: Table, accepted: set<Row>, r: Row)
    requires Holds(t, u, accepted) && r.id in u && u[r.id].hash == r.hash
    ensures Holds(t, u, accepted + {r})
  {
    hide AsStored, StoredFrom;
    forall id | id in u && id !in t ensures StoredFrom(accepted + {r}, u[id]) { StoredFromMore(accepted, {r}, u[id]); }
  }

  lemma HoldsNew(t: Table, u: Table, accepted: set<Row>, r: Row)
    requires Holds(t, u, accepted) && r.id !in u
    ensures Holds(t, u[r.id := AsStored(r)], accepted + {r})
  {
    hide AsStored, StoredFrom;
    StoredHash(r);
    NewlyStored(accepted, r);
    var w := u[r.id := AsStored(r)];
    forall id | id in w && id !in t ensures StoredFrom(accepted + {r}, w[id]) {
      if id != r.id { StoredFromMore(accepted, {r}, u[id]); }
    }
  }

  lemma NewlyStored(accepted: set<Row>, r: Row)
    ensures StoredFrom(accepted + {r}, AsStored(r))
  {
    hide AsStored;
    assert r in accepted + {r};
  }

  /** Whether an insert was passed over for a row other than the one to insert;
      then all of it is rolled back. */
  method InsertAll(store: SqliteStore, accepted: seq<Row>) returns (inserted: nat, storedMeanwhile: bool)
    requires Keyed(store.table) && forall r | r in accepted :: r.Sealed()
    modifies store
    ensures Keyed(store.table)
    ensures storedMeanwhile ==> store.table == old(store.table)
    ensures !storedMeanwhile ==> inserted == |accepted| && Holds(old(store.table), store.table, RowSet(accepted))
    ensures Insertable(old(store.table), accepted) ==> !storedMeanwhile
  {
    hide Keyed, Insertable, Holds, InsertRow, Conflicts, RowSet, AsStored;
    inserted, storedMeanwhile := 0, false;
    var t := store.table;
    HoldsNothing(t);
    assert accepted[..0] == [];
    for i := 0 to |accepted|
      invariant inserted == i && Keyed(store.table)
      invariant Holds(t, store.table, RowSet(accepted[..i]))
    {
      var row := accepted[i];
      ghost var u := store.table;
      InsertKeepsKeyed(u, row);
      if Insertable(t, accepted) { InsertNext(t, u, accepted, i); }
      SetMore(accepted, i);
      Inserts(u, row);
      var n := store.InsertRowExec(row);
      if n == 0 {
        var held := if row.id in store.table then store.table[row.id].hash else "";
        if held != row.hash {
          store.table := t;
          return 0, true;
        }
        assert row.Sealed();
        HoldsHeld(t, u, RowSet(accepted[..i]), row);
      } else {
        HoldsNew(t, u, RowSet(accepted[..i]), row);
      }
      inserted := inserted + 1;
    }
    assert accepted[..|accepted|] == accepted;
  }

  lemma SetMore(rows: seq<Row>, i: nat)
    requires i < |rows|
    ensures RowSet(rows[..i + 1]) == RowSet(rows[..i]) + {rows[i]}
  {
    assert rows[..i + 1] == rows[..i] + [rows[i]];
  }

  lemma Inserts(u: Table, r: Row)
    ensures Conflicts(u, r) ==> InsertRow(u, r) == u
    ensures !Conflicts(u, r) ==> r.id !in u && InsertRow(u, r) == u[r.id := AsStored(r)]
  {
  }

  /** Rows that are no misfits can be inserted one by one. */
  lemma FitsInsertable(check: Row -> bool, t: Table, rows: seq<Row>, accepted: seq<Row>)
    requires HashFixesPlace(check) && !Fails(check, t, rows)
    requires Distinct(accepted) && RowSet(accepted) == Accepted(check, t, rows)
    ensures Insertable(t, accepted)
  {
    hide Accepted, InPrefix, Distinct, HashFixesPlace, IdTaken, Prefix;
    forall r | r in accepted ensures r in Accepted(check, t, rows) && !Misfit(t, Prefix(check, rows), r) {
      assert r in RowSet(accepted);
    }
    forall r, o | r in accepted && r.id !in t && o in t.Values && o.node == r.node ensures o.seqNo != r.seqNo {
      assert !At(t, o, r.node, r.seqNo);
    }
    forall i, j | 0 <= i < j < |accepted|
      ensures accepted[i].id != accepted[j].id && !(accepted[i].node == accepted[j].node && accepted[i].seqNo == accepted[j].seqNo)
    {
      PairApart(check, t, rows, accepted, i, j);
    }
  }

  lemma IdsApart(check: Row -> bool, t: Table, rows: seq<Row>, a: Row, b: Row)
    requires !Fails(check, t, rows) && a in Accepted(check, t, rows) && b in Accepted(check, t, rows) && a != b
    ensures a.id != b.id
  {
    hide Prefix, Conflict;
    OrderedSomehow(a, b);
    assert !Misfit(t, Prefix(check, rows), a) && !Misfit(t, Prefix(check, rows), b);
  }

  lemma PairApart(check: Row -> bool, t: Table, rows: seq<Row>, accepted: seq<Row>, i: nat, j: nat)
    requires HashFixesPlace(check) && !Fails(check, t, rows)
    requires Distinct(accepted) && i < j < |accepted| && RowSet(accepted) == Accepted(check, t, rows)
    ensures accepted[i].id != accepted[j].id && !(accepted[i].node == accepted[j].node && accepted[i].seqNo == accepted[j].seqNo)
  {
    hide Accepted, InPrefix, HashFixesPlace, Fails;
    var a, b := accepted[i], accepted[j];
    assert a in RowSet(accepted) && b in RowSet(accepted) && !SameRow(accepted[i], accepted[j]);
    AcceptedIn(check, t, rows, a);
    AcceptedIn(check, t, rows, b);
    IdsApart(check, t, rows, a, b);
    if a.node == b.node && a.seqNo == b.seqNo { PrefixDistinct(check, rows, a, b); }
  }

  /** IngestReplicated, as one writer sees it: the store goes on as one ingest of
      the batch takes it, or there is an error and it does not. The error comes
      exactly when a row would have to take another's place, after a conflict at
      seq 0 was overlooked. */
  method IngestReplicated(store: SqliteStore, check: Row -> bool, rows: seq<Row>) returns (res: IngestResult, err: bool)
    requires Keyed(store.table)
    modifies store
    ensures Keyed(store.table)
    ensures err ==> store.table == old(store.table)
    ensures !err ==> Ingests(check, old(store.table), rows, store.table, res)
    ensures HashFixesPlace(check) ==> (err <==> Fails(check, old(store.table), rows))
  {
    hide Keyed, Prefix, BatchCut, Distinct, InSeqOrder, Least, ConflictSeqs, Holds, Insertable, HashFixesPlace, Fails;
    ghost var t := store.table;
    var prefix, rejectedFromSeq := VerifiedPrefix(check, rows);
    var unsealed := SkippedUnsealed(rows, rejectedFromSeq);
    PrefixSealed(check, rows, prefix, unsealed);
    if |prefix| == 0 && |unsealed| == 0 {
      NothingToIngest(check, t, rows, prefix, unsealed);
      return IngestResult(0, rejectedFromSeq), false;
    }
    var conflictSeq := StoredConflict(store, prefix, unsealed);
    var accepted := prefix;
    if conflictSeq != 0 {
      accepted := BelowSeq(prefix, conflictSeq);
      rejectedFromSeq := conflictSeq;
    }
    AcceptedIs(check, t, rows, prefix, conflictSeq, accepted);
    if HashFixesPlace(check) && !Fails(check, t, rows) { FitsInsertable(check, t, rows, accepted); }
    SetSize(accepted);
    var inserted, storedMeanwhile := InsertAll(store, accepted);
    res, err := IngestResult(inserted, rejectedFromSeq), storedMeanwhile;
    if HashFixesPlace(check) && !err { HeldNeverFails(check, t, rows, store.table, res); }
  }

  lemma HeldNeverFails(check: Row -> bool, t: Table, rows: seq<Row>, u: Table, res: IngestResult)
    requires HashFixesPlace(check) && Keyed(t) && Ingests(check, t, rows, u, res)
    ensures !Fails(check, t, rows)
  {
    hide HashFixesPlace, Keyed, Misfit, Accepted, Reported, Holds;
    forall r | r in Accepted(check, t, rows) ensures !Misfit(t, Prefix(check, rows), r) { HeldFits(check, t, rows, u, r); }
  }

  lemma PrefixSealed(check: Row -> bool, rows: seq<Row>, prefix: seq<Row>, unsealed: seq<Row>)
    requires RowSet(prefix) == Prefix(check, rows) && RowSet(unsealed) == Skipped(check, rows)
    ensures (forall r | r in prefix :: r.Sealed()) && (forall r | r in unsealed :: !r.Sealed())
  {
    hide BatchCut, Prefix;
    forall r | r in prefix ensures r.Sealed() {
      assert r in RowSet(prefix);
      PrefixGiven(check, rows, r);
    }
    assert forall r | r in unsealed :: r in RowSet(unsealed);
  }

  lemma NothingToIngest(check: Row -> bool, t: Table, rows: seq<Row>, prefix: seq<Row>, unsealed: seq<Row>)
    requires Keyed(t) && RowSet(prefix) == Prefix(check, rows) && prefix == [] && unsealed == []
    requires RowSet(unsealed) == Skipped(check, rows)
    ensures Ingests(check, t, rows, t, IngestResult(0, CutSeq(BatchCut(check, rows)))) && !Fails(check, t, rows)
  {
    hide BatchCut, Least, Prefix, Skipped, Keyed;
    assert Prefix(check, rows) == {} && RowSet(unsealed) == {};
    assert Disputed(check, t, rows) == {};
  }

  lemma AcceptedIs(check: Row -> bool, t: Table, rows: seq<Row>, prefix: seq<Row>, conflictSeq: int, accepted: seq<Row>)
    requires RowSet(prefix) == Prefix(check, rows) && conflictSeq == CutSeq(Least(Disputed(check, t, rows)))
    requires if conflictSeq != 0 then forall r :: r in accepted <==> r in prefix && r.seqNo < conflictSeq else accepted == prefix
    ensures RowSet(accepted) == Accepted(check, t, rows)
    ensures Reported(check, t, rows) == if conflictSeq != 0 then conflictSeq else CutSeq(BatchCut(check, rows))
  {
    hide BatchCut, Least, Prefix, Disputed;
    assert forall r :: r in prefix <==> r in RowSet(prefix);
  }

  /******* ingestWithoutLocalNode *******/

  lemma {:induction false} CopyBreaksBelow<K>(key: Row -> K, check: Row -> bool, rows: seq<Row>, low: int)
    requires forall r | r in rows :: r.seqNo < low
    ensures forall x | x in CopyBreaksBy(key, check, rows) :: x < low
  {
    hide KeptBy;
    if rows != [] {
      assert rows[|rows| - 1] in rows;
      CopyBreaksBelow(key, check, rows[..|rows| - 1], low);
    }
  }

  function LocalSeqs(localNode: string, rows: seq<Row>): set<int>
  {
    if localNode == "" then {} else set r | r in rows && r.node == localNode :: r.seqNo
  }

  /** The lowest seq among the local node's rows. */
  method LowestLocal(localNode: string, rows: seq<Row>) returns (low: Option<int>)
    ensures low == Least(LocalSeqs(localNode, rows))
  {
    low := None;
    for i := 0 to |rows|
      invariant low == Least(LocalSeqs(localNode, rows[..i]))
    {
      var r := rows[i];
      assert rows[..i + 1] == rows[..i] + [r];
      ghost var more := if localNode != "" && r.node == localNode then {r.seqNo} else {};
      assert LocalSeqs(localNode, rows[..i + 1]) == LocalSeqs(localNode, rows[..i]) + more;
      LeastUnion(LocalSeqs(localNode, rows[..i]), more);
      if more != {} { LeastIs(more, r.seqNo); }
      if localNode != "" && r.node == localNode && (low.None? || r.seqNo < low.value) {
        low := Some(r.seqNo);
      }
    }
    assert rows[..|rows|] == rows;
  }

  /** The rows under a seq, in their order. */
  function Under(rows: seq<Row>, low: int): (kept: seq<Row>)
    ensures forall r :: r in kept <==> r in rows && r.seqNo < low
  {
    if rows == [] then []
    else
      var front, last := Under(rows[..|rows| - 1], low), rows[|rows| - 1];
      assert rows == rows[..|rows| - 1] + [last];
      if last.seqNo < low then front + [last] else front
  }

  method RowsBelow(rows: seq<Row>, low: int) returns (kept: seq<Row>)
    ensures kept == Under(rows, low)
  {
    kept := [];
    for i := 0 to |rows|
      invariant kept == Under(rows[..i], low)
    {
      assert rows[..i + 1][..i] == rows[..i];
      if rows[i].seqNo < low {
        kept := kept + [rows[i]];
      }
    }
    assert rows[..|rows|] == rows;
  }

  /** What was added came from the batch. */
  lemma AddedFromBatch(check: Row -> bool, t: Table, rows: seq<Row>, u: Table, res: IngestResult)
    requires Ingests(check, t, rows, u, res)
    ensures forall id | id in u && id !in t :: exists r | r in rows :: u[id].node == r.node && u[id].seqNo == r.seqNo
  {
    hide AsStored, Accepted, Reported, Keyed, StoredFrom;
    forall id | id in u && id !in t ensures exists r | r in rows :: u[id].node == r.node && u[id].seqNo == r.seqNo {
      var s := NewSource(t, u, Accepted(check, t, rows), id);
      AcceptedIn(check, t, rows, s);
      StoredPlace(s);
    }
  }

  /** The batch breaks at one of its rows. */
  lemma CutUnder(check: Row -> bool, t: Table, rows: seq<Row>, low: int)
    requires forall r | r in rows :: r.seqNo < low
    ensures Reported(check, t, rows) != 0 ==> Reported(check, t, rows) < low
  {
    hide Least, CopyBreaksBy, KeptBy, Sort, Broken, IdTaken, Clashes, StoredBelow, JoinedKey, Prefix;
    var sorted := Sequenced(rows);
    SortedBatch(rows);
    CopyBreaksBelow(JoinedKey, check, sorted, low);
    KeptByGiven(JoinedKey, sorted);
    WholeBreaks(VerifiedRows(rows), []);
    forall x | x in Disputed(check, t, rows) ensures x < low {
      if u :| u in Skipped(check, rows) && u.seqNo == x {
      } else {
        var r :| r in Prefix(check, rows) && r.seqNo == x;
        PrefixGiven(check, rows, r);
      }
    }
  }

  /** What is left to ingest: the rows below the local node's lowest. */
  ghost function Foreign(localNode: string, rows: seq<Row>): seq<Row>
  {
    var low := Least(LocalSeqs(localNode, rows));
    if low.None? then rows else Under(rows, low.value)
  }

  /** Without the local node's rows, the batch is ingested up to the lowest of
      them, and the cut is there unless it comes first. */
  ghost predicate IngestsFor(check: Row -> bool, localNode: string, t: Table, rows: seq<Row>, u: Table, res: IngestResult)
  {
    var low := Least(LocalSeqs(localNode, rows));
    exists inner ::
      && Ingests(check, t, Foreign(localNode, rows), u, inner)
      && res == IngestResult(inner.inserted, if low.Some? && inner.rejectedFromSeq == 0 then low.value else inner.rejectedFromSeq)
  }

  ghost predicate LocalUnnumbered(localNode: string, rows: seq<Row>)
  {
    exists x :: x in LocalSeqs(localNode, rows) && x < 1
  }

  /** No row of the local node is stored, and the cut is not above its lowest;
      an unnumbered row of it is an error, and an error changes nothing. */
  method IngestReplicatedFor(store: SqliteStore, check: Row -> bool, localNode: string, rows: seq<Row>)
    returns (res: IngestResult, err: bool)
    requires Keyed(store.table)
    modifies store
    ensures Keyed(store.table)
    ensures err ==> store.table == old(store.table)
    ensures !err ==> IngestsFor(check, localNode, old(store.table), rows, store.table, res)
    ensures localNode != "" ==> forall id | id in store.table && id !in old(store.table) :: store.table[id].node != localNode
    ensures !err ==> forall x | x in LocalSeqs(localNode, rows) :: res.rejectedFromSeq != 0 && res.rejectedFromSeq <= x
    ensures LocalUnnumbered(localNode, rows) ==> err
    ensures HashFixesPlace(check) ==>
      (err <==> LocalUnnumbered(localNode, rows) || Fails(check, old(store.table), Foreign(localNode, rows)))
  {
    hide Keyed, Ingests, Under, Fails, HashFixesPlace;
    ghost var t := store.table;
    var low := LowestLocal(localNode, rows);
    if low.None? {
      res, err := IngestReplicated(store, check, rows);
      if !err {
        AddedFromBatch(check, t, rows, store.table, res);
        assert Ingests(check, t, Foreign(localNode, rows), store.table, res);
      }
      if localNode != "" { assert forall r | r in rows && r.node == localNode :: r.seqNo in LocalSeqs(localNode, rows); }
      return;
    }
    if low.value < 1 {
      return IngestResult(0, 0), true;
    }
    var kept := RowsBelow(rows, low.value);
    res, err := IngestReplicated(store, check, kept);
    if err {
      return;
    }
    AddedFromBatch(check, t, kept, store.table, res);
    CutUnder(check, t, kept, low.value);
    ReportedIs(check, t, kept, store.table, res);
    assert forall r | r in rows && r.node == localNode :: r.seqNo in LocalSeqs(localNode, rows);
    ghost var inner := res;
    if res.rejectedFromSeq == 0 {
      res := res.(rejectedFromSeq := low.value);
    }
    assert Ingests(check, t, Foreign(localNode, rows), store.table, inner);
  }

  lemma ReportedIs(check: Row -> bool, t: Table, rows: seq<Row>, u: Table, res: IngestResult)
    requires Ingests(check, t, rows, u, res)
    ensures res.rejectedFromSeq == Reported(check, t, rows)
  {
  }
}
