/** The store itself: one table, changed in place, each method one transaction.
    What SQL computes over the table is a scan of its ids here. */
module SqlStore {
  import opened Text
  import opened Timestamps
  import opened Rows
  import opened Sealing
  import opened RowLaws
  import opened Sorting
  import opened Verify
  import opened Store

  /** The rows of `t` other than those with an id in `left`. */
  ghost predicate Scanned(t: Table, left: set<string>, r: Row)
  {
    r.id in t && r.id !in left && t[r.id] == r
  }

  lemma ScanStep(t: Table, left: set<string>, id: string)
    requires Keyed(t) && left <= t.Keys && id in left
    ensures forall r :: Scanned(t, left - {id}, r) <==> Scanned(t, left, r) || r == t[id]
  {
  }

  lemma ScanEnds(t: Table)
    requires Keyed(t)
    ensures forall r :: r in t.Values <==> Scanned(t, {}, r)
    ensures forall r :: !Scanned(t, t.Keys, r)
  {
  }

  /** What the purge leaves of the rows whose ids are not in `left`. */
  ghost function PurgedBut(t: Table, left: set<string>, before: Time, respectUnshipped: bool): Table
  {
    map id | id in t && id !in left && !Purged(t, t[id], before, respectUnshipped) :: t[id]
  }

  lemma PurgeStep(t: Table, left: set<string>, before: Time, respectUnshipped: bool, id: string)
    requires id in t && id in left
    ensures var kept, r := PurgedBut(t, left, before, respectUnshipped), t[id];
      PurgedBut(t, left - {id}, before, respectUnshipped) ==
        if r.seqNo < KeepFrom(t, r.node, before, respectUnshipped) && r.timestamp < before && (respectUnshipped ==> r.shippedAt.Some?)
        then kept else kept[id := r]
    ensures id !in PurgedBut(t, left, before, respectUnshipped)
  {
    hide KeepFrom;
  }

  lemma PurgeStarts(t: Table, before: Time, respectUnshipped: bool)
    ensures PurgedBut(t, t.Keys, before, respectUnshipped) == map[] && |t.Keys| == |t|
  {
  }

  lemma PurgeEnds(t: Table, before: Time, respectUnshipped: bool)
    ensures PurgedBut(t, {}, before, respectUnshipped) == Purge(t, before, respectUnshipped)
  {
  }

  /** The updates of the rows whose ids are not in `left`. */
  function ShippedBut(t: Table, left: set<string>, ids: seq<string>, now: Time): Table
  {
    map id | id in t :: if id in ids && id !in left then Ship(t[id], now) else t[id]
  }

  function RedactedBut(t: Table, left: set<string>, ids: seq<string>): Table
  {
    map id | id in t :: if id in ids && id !in left && Clears(t[id]) then Redacted(t[id]) else t[id]
  }

  lemma ShipStep(t: Table, left: set<string>, ids: seq<string>, now: Time, id: string)
    requires id in t && id in left
    ensures var u := ShippedBut(t, left, ids, now);
      id in u && ShippedBut(t, left - {id}, ids, now) == if id in ids then u[id := Ship(u[id], now)] else u
  {
    hide Ship;
  }

  lemma RedactStep(t: Table, left: set<string>, ids: seq<string>, id: string)
    requires id in t && id in left
    ensures var u := RedactedBut(t, left, ids);
      id in u && RedactedBut(t, left - {id}, ids) == if id in ids && Clears(u[id]) then u[id := Redacted(u[id])] else u
  {
    hide Redacted, Clears;
  }

  lemma ShipEnds(t: Table, ids: seq<string>, now: Time)
    ensures ShippedBut(t, t.Keys, ids, now) == t && ShippedBut(t, {}, ids, now) == MarkShipped(t, ids, now)
  {
    hide Ship;
  }

  lemma RedactEnds(t: Table, ids: seq<string>)
    ensures RedactedBut(t, t.Keys, ids) == t && RedactedBut(t, {}, ids) == RedactRows(t, ids)
  {
    hide Redacted, Clears;
  }

  class SqliteStore {
    const sha: string -> string
    var table: Table

    /** Opens a table with the rows it holds. */
    constructor (sha: string -> string, rows: Table)
      ensures this.sha == sha && table == rows
    {
      this.sha := sha;
      table := rows;
    }

    /** COALESCE(MAX(monotonic_seq), 0) of a node. */
    method MaxSeq(node: string) returns (highest: int)
      requires Keyed(table)
      ensures highest == HighestSeq(table, node)
    {
      hide Keyed, Greatest;
      var found: Option<int> := None;
      var left := table.Keys;
      ScanEnds(table);
      while left != {}
        invariant left <= table.Keys
        invariant found.None? ==> forall r | Scanned(table, left, r) :: r.node != node
        invariant found.Some? ==> exists r | Scanned(table, left, r) :: r.node == node && r.seqNo == found.value
        invariant found.Some? ==> forall r | Scanned(table, left, r) && r.node == node :: r.seqNo <= found.value
        decreases |left|
      {
        var id :| id in left;
        ScanStep(table, left, id);
        if table[id].node == node && (found.None? || table[id].seqNo > found.value) {
          found := Some(table[id].seqNo);
        }
        left := left - {id};
      }
      highest := if found.Some? then found.value else 0;
      if found.Some? {
        ghost var r :| Scanned(table, {}, r) && r.node == node && r.seqNo == found.value;
        assert r.seqNo in Seqs(table.Values, node);
      } else {
        assert Seqs(table.Values, node) == {};
      }
    }

    /** The hash of the node's sealed row with the highest seq, or "genesis". */
    method Tip(node: string) returns (tip: string)
      requires Keyed(table)
      ensures TipHash(table, node, tip)
    {
      hide Keyed;
      var found: Option<Row> := None;
      var left := table.Keys;
      ScanEnds(table);
      while left != {}
        invariant left <= table.Keys
        invariant found.None? ==> forall r | Scanned(table, left, r) :: !(r.node == node && r.Sealed())
        invariant found.Some? ==> Scanned(table, left, found.value) && found.value.node == node && found.value.Sealed()
        invariant found.Some? ==> forall r | Scanned(table, left, r) && r.node == node && r.Sealed() :: r.seqNo <= found.value.seqNo
        decreases |left|
      {
        var id :| id in left;
        ScanStep(table, left, id);
        var row := table[id];
        if row.node == node && row.hash != "" && (found.None? || row.seqNo > found.value.seqNo) {
          found := Some(row);
        }
        left := left - {id};
      }
      tip := if found.Some? then found.value.hash else GENESIS;
      if found.Some? {
        assert IsTip(table, found.value);
      }
    }

    /** INSERT OR IGNORE; the number of rows inserted. */
    method InsertRowExec(row: Row) returns (inserted: nat)
      requires Keyed(table)
      modifies this
      ensures table == InsertRow(old(table), row) && inserted == if Conflicts(old(table), row) then 0 else 1
    {
      hide Keyed, AsStored;
      var taken := row.id in table;
      var left := table.Keys;
      ScanEnds(table);
      while left != {} && !taken
        invariant table == old(table) && left <= table.Keys
        invariant taken ==> Conflicts(table, row)
        invariant !taken ==> row.id !in table && forall r | Scanned(table, left, r) :: !(r.node == row.node && r.seqNo == row.seqNo)
        decreases |left|
      {
        var id :| id in left;
        ScanStep(table, left, id);
        if table[id].node == row.node && table[id].seqNo == row.seqNo {
          assert table[id] in table.Values;
          taken := true;
        }
        left := left - {id};
      }
      if taken {
        return 0;
      }
      table := table[row.id := AsStored(row)];
      inserted := 1;
    }

    /** None when the row claims another origin; nothing is stored then. */
    method AllocateAndInsertOriginated(row: Row, salt: string) returns (result: Option<Row>)
      requires Keyed(table) && salt != ""
      modifies this
      ensures Next(sha, old(table), Allocating(row, salt), table)
      ensures result.Some? <==> row.originId == row.id
      ensures result.Some? ==> Allocated(sha, old(table), row, salt, result.value) && table == InsertRow(old(table), result.value)
    {
      hide Keyed, HighestSeq, TipHash, InsertRow, Conflicts, Seal;
      if row.originId != row.id {
        return None;
      }
      var highest := MaxSeq(row.node);
      var prevHash := Tip(row.node);
      var sealed := Seal(sha, prevHash, row.(seqNo := highest + 1), salt);
      assert Allocated(sha, table, row, salt, sealed);
      var n := InsertRowExec(sealed);
      result := Some(sealed);
    }

    /** UPDATE ... SET shipped_at WHERE id IN ids: a scan of the rows. */
    method MarkShippedRows(ids: seq<string>, now: Time)
      modifies this
      ensures table.Keys == old(table).Keys
      ensures forall id | id in table && id in ids :: table[id] == Ship(old(table)[id], now)
      ensures forall id | id in table && id !in ids :: table[id] == old(table)[id]
      ensures Next(sha, old(table), Shipping(ids, now), table)
      ensures Chained(sha, old(table)) ==> Chained(sha, table)
    {
      hide Chained, Ship, MarkShipped, ShippedBut, Next;
      ShippedRows(sha, table, ids, now);
      if Chained(sha, table) { ShippingKeepsChained(sha, table, ids, now); }
      if |ids| == 0 {
        return;
      }
      var left := table.Keys;
      ShipEnds(table, ids, now);
      while left != {}
        invariant left <= old(table).Keys && table == ShippedBut(old(table), left, ids, now)
        decreases |left|
      {
        var id :| id in left;
        ShipStep(old(table), left, ids, now, id);
        if id in ids {
          table := table[id := Ship(table[id], now)];
        }
        left := left - {id};
      }
    }

    /** UPDATE ... SET detail, detail_salt, but never under a form "1" hash. */
    method Redact(ids: seq<string>) returns (done: seq<string>)
      modifies this
      ensures table.Keys == old(table).Keys && done == ids
      ensures forall id | id in table && id in ids && Clears(old(table)[id]) :: table[id] == Redacted(old(table)[id])
      ensures forall id | id in table && !(id in ids && Clears(old(table)[id])) :: table[id] == old(table)[id]
      ensures Next(sha, old(table), Redacting(ids), table)
      ensures Chained(sha, old(table)) ==> Chained(sha, table)
    {
      hide Chained, Clears, Redacted, RedactRows, RedactedBut, Next;
      RedactedRows(sha, table, ids);
      if Chained(sha, table) { RedactingKeepsChained(sha, table, ids); }
      done := ids;
      if |ids| == 0 {
        return;
      }
      var left := table.Keys;
      RedactEnds(table, ids);
      while left != {}
        invariant left <= old(table).Keys && table == RedactedBut(old(table), left, ids)
        decreases |left|
      {
        var id :| id in left;
        RedactStep(old(table), left, ids, id);
        if id in ids && Clears(table[id]) {
          table := table[id := Redacted(table[id])];
        }
        left := left - {id};
      }
    }

    /** The purge's bound for a node. */
    method Bound(node: string, before: Time, respectUnshipped: bool) returns (keepFrom: int)
      requires Keyed(table)
      ensures keepFrom == KeepFrom(table, node, before, respectUnshipped)
    {
      hide Keyed, Least;
      var found: Option<int> := None;
      var left := table.Keys;
      ScanEnds(table);
      while left != {}
        invariant left <= table.Keys
        invariant found.None? ==> forall r | Scanned(table, left, r) :: !Bounds(r, node, before, respectUnshipped)
        invariant found.Some? ==> exists r | Scanned(table, left, r) :: Bounds(r, node, before, respectUnshipped) && r.seqNo == found.value
        invariant found.Some? ==> forall r | Scanned(table, left, r) && Bounds(r, node, before, respectUnshipped) :: found.value <= r.seqNo
        decreases |left|
      {
        var id :| id in left;
        ScanStep(table, left, id);
        if Bounds(table[id], node, before, respectUnshipped) && (found.None? || table[id].seqNo < found.value) {
          found := Some(table[id].seqNo);
        }
        left := left - {id};
      }
      keepFrom := if found.Some? then found.value else MAX_SEQ;
      ghost var young := YoungSeqs(table, node, before, respectUnshipped);
      if found.Some? {
        ghost var r :| Scanned(table, {}, r) && Bounds(r, node, before, respectUnshipped) && r.seqNo == found.value;
        assert r.seqNo in young;
        LeastIs(young, found.value);
      } else {
        assert young == {};
      }
    }

    /** Whether no sealed row of its node is above `row`. */
    method IsTipRow(row: Row) returns (tip: bool)
      requires Keyed(table) && row.id in table && table[row.id] == row
      ensures tip <==> IsTip(table, row)
    {
      hide Keyed;
      if row.hash == "" {
        return false;
      }
      var left := table.Keys;
      ScanEnds(table);
      while left != {}
        invariant left <= table.Keys
        invariant forall r | Scanned(table, left, r) && r.node == row.node && r.Sealed() :: r.seqNo <= row.seqNo
        decreases |left|
      {
        var id :| id in left;
        ScanStep(table, left, id);
        if table[id].node == row.node && table[id].hash != "" && table[id].seqNo > row.seqNo {
          assert table[id] in table.Values;
          return false;
        }
        left := left - {id};
      }
      tip := true;
    }

    /** Each node's sealed row with the highest seq, by node. */
    method ChainTips() returns (tips: seq<Row>)
      requires Keyed(table)
      ensures forall r :: r in tips <==> IsTip(table, r)
      ensures forall i, j | 0 <= i < j < |tips| :: Less(tips[i].node, tips[j].node)
    {
      hide Keyed, IsTip, Less;
      tips := [];
      var left := table.Keys;
      ScanEnds(table);
      while left != {}
        invariant left <= table.Keys && Pairwise(OtherId, tips)
        invariant forall r :: r in tips <==> Scanned(table, left, r) && IsTip(table, r)
        decreases |left|
      {
        var id :| id in left;
        KeyedId(table, id);
        ScanStep(table, left, id);
        var tip := IsTipRow(table[id]);
        if tip {
          assert forall r | r in tips :: r.id != id;
          tips := tips + [table[id]];
        }
        left := left - {id};
      }
      ByNodeOrders();
      SortSorts(ByNode, tips);
      SortKeepsPairwise(ByNode, OtherId, tips);
      TipsScanned(table);
      tips := Sort(ByNode, tips);
      TipsApart(table, tips);
    }

    /** DELETE of each node's rows below its bound. The bounds are of the table
        as it was, however the deletes go on. */
    method PurgeRows(before: Time, respectUnshipped: bool) returns (deleted: nat)
      requires Keyed(table)
      modifies this
      ensures Next(sha, old(table), Purging(before, respectUnshipped), table)
      ensures deleted == |old(table)| - |table|
      ensures Chained(sha, old(table)) ==> Chained(sha, table)
    {
      hide Keyed, KeepFrom, Purged, Chained, PurgedBut;
      deleted := 0;
      var kept: Table := map[];
      var left := table.Keys;
      PurgeStarts(table, before, respectUnshipped);
      while left != {}
        invariant table == old(table) && left <= table.Keys
        invariant kept == PurgedBut(table, left, before, respectUnshipped)
        invariant |kept| + deleted + |left| == |table|
        decreases |left|
      {
        var id :| id in left;
        var row := table[id];
        var keepFrom := Bound(row.node, before, respectUnshipped);
        PurgeStep(table, left, before, respectUnshipped, id);
        if !(row.seqNo < keepFrom && row.timestamp < before && (respectUnshipped ==> row.shippedAt.Some?)) {
          kept := kept[id := row];
        } else {
          deleted := deleted + 1;
        }
        left := left - {id};
      }
      PurgeEnds(table, before, respectUnshipped);
      table := kept;
      if Chained(sha, old(table)) { PurgingKeepsChained(sha, old(table), before, respectUnshipped); }
    }
  }

  lemma ShippedRows(sha: string -> string, t: Table, ids: seq<string>, now: Time)
    ensures var u := MarkShipped(t, ids, now);
      && u.Keys == t.Keys && (forall id | id in t :: u[id] == if id in ids then Ship(t[id], now) else t[id])
      && (ids == [] ==> u == t) && Next(sha, t, Shipping(ids, now), u)
  {
    hide Ship;
  }

  lemma RedactedRows(sha: string -> string, t: Table, ids: seq<string>)
    ensures var u := RedactRows(t, ids);
      && u.Keys == t.Keys && (forall id | id in t :: u[id] == if id in ids && Clears(t[id]) then Redacted(t[id]) else t[id])
      && (ids == [] ==> u == t) && Next(sha, t, Redacting(ids), u)
  {
    hide Redacted, Clears;
  }

  predicate Bounds(r: Row, node: string, before: Time, respectUnshipped: bool)
  {
    r.node == node && r.seqNo > 0 && Young(r, before, respectUnshipped)
  }

  lemma KeyedId(t: Table, id: string)
    requires Keyed(t) && id in t
    ensures t[id].id == id
  {
  }

  lemma TipsScanned(t: Table)
    ensures forall r :: IsTip(t, r) ==> Scanned(t, {}, r)
  {
  }

  predicate OtherId(a: Row, b: Row) { a.id != b.id }

  /** A table has one tip per node. */
  lemma TipsApart(t: Table, tips: seq<Row>)
    requires Keyed(t) && Sorted(ByNode, tips) && Pairwise(OtherId, tips) && forall r | r in tips :: IsTip(t, r)
    ensures forall i, j | 0 <= i < j < |tips| :: Less(tips[i].node, tips[j].node)
  {
    hide Less;
    forall i, j | 0 <= i < j < |tips| ensures Less(tips[i].node, tips[j].node) {
      var a, b := tips[i], tips[j];
      assert a in tips && b in tips && OtherId(a, b) && ByNode(a, b);
      if a.node != b.node { LessConnected(a.node, b.node); }
      assert a in t.Values && b in t.Values;
    }
  }

  predicate ByNode(a: Row, b: Row) { !Less(b.node, a.node) }

  lemma ByNodeOrders()
    ensures TotalOrder(ByNode)
  {
    hide Less;
    forall a: Row, b: Row ensures ByNode(a, b) || ByNode(b, a) {
      if Less(b.node, a.node) && Less(a.node, b.node) {
        LessTransitive(a.node, b.node, a.node);
        LessIrreflexive(a.node);
      }
    }
    forall a: Row, b: Row, c: Row | ByNode(a, b) && ByNode(b, c) ensures ByNode(a, c) {
      if Less(c.node, a.node) && a.node != b.node {
        LessConnected(a.node, b.node);
        LessTransitive(c.node, a.node, b.node);
      }
    }
  }

  function CheckpointOf(r: Row, now: string): Checkpoint { Checkpoint(r.node, r.seqNo, r.hash, now) }

  ghost predicate FromTips(tips: seq<Row>, out: seq<Checkpoint>, now: string)
  {
    forall cp | cp in out :: exists r | r in tips :: cp == CheckpointOf(r, now)
  }

  ghost predicate Covers(tips: seq<Row>, out: seq<Checkpoint>)
  {
    forall r | r in tips :: exists cp | cp in out :: cp.node == r.node
  }

  ghost predicate OnePerNode(out: seq<Checkpoint>)
  {
    forall i, j | 0 <= i < j < |out| :: out[i].node != out[j].node
  }

  /** One checkpoint per node that has a tip; a second tip of the same node,
      which only a broken table has, is passed over. */
  method TakeCheckpoints(tips: seq<Row>, now: string) returns (out: seq<Checkpoint>)
    requires Sorted(ByNode, tips)
    ensures FromTips(tips, out, now) && Covers(tips, out) && OnePerNode(out)
  {
    hide Less, Sorted, FromTips, Covers, OnePerNode;
    out := [];
    NoneTaken(tips, now);
    for k := 0 to |tips|
      invariant FromTips(tips, out, now) && Covers(tips[..k], out) && OnePerNode(out)
      invariant forall i | 0 <= i < |out| :: k > 0 && !Less(tips[k - 1].node, out[i].node)
      invariant if k == 0 then out == [] else out != [] && out[|out| - 1].node == tips[k - 1].node
    {
      var tip := tips[k];
      if |out| > 0 && out[|out| - 1].node == tip.node {
        PassedOver(tips, k, out);
        continue;
      }
      if k > 0 { NodesAbove(tips, k, out); }
      LessIrreflexive(tip.node);
      Taken(tips, k, out, now);
      out := out + [CheckpointOf(tip, now)];
    }
    assert tips[..|tips|] == tips;
  }

  lemma NoneTaken(tips: seq<Row>, now: string)
    ensures FromTips(tips, [], now) && Covers(tips[..0], []) && OnePerNode([])
  {
  }

  lemma PassedOver(tips: seq<Row>, k: nat, out: seq<Checkpoint>)
    requires k < |tips| && Covers(tips[..k], out) && out != [] && out[|out| - 1].node == tips[k].node
    ensures Covers(tips[..k + 1], out)
  {
    assert tips[..k + 1] == tips[..k] + [tips[k]];
    assert out[|out| - 1] in out;
  }

  lemma Taken(tips: seq<Row>, k: nat, out: seq<Checkpoint>, now: string)
    requires k < |tips| && FromTips(tips, out, now) && Covers(tips[..k], out) && OnePerNode(out)
    requires forall i | 0 <= i < |out| :: out[i].node != tips[k].node
    ensures var after := out + [CheckpointOf(tips[k], now)];
      FromTips(tips, after, now) && Covers(tips[..k + 1], after) && OnePerNode(after)
  {
    var after := out + [CheckpointOf(tips[k], now)];
    assert tips[..k + 1] == tips[..k] + [tips[k]];
    forall r | r in tips[..k + 1] ensures exists cp | cp in after :: cp.node == r.node {
      if r == tips[k] {
        assert CheckpointOf(r, now) in after;
      } else {
        var cp :| cp in out && cp.node == r.node;
        assert cp in after;
      }
    }
  }

  lemma NodesAbove(tips: seq<Row>, k: nat, out: seq<Checkpoint>)
    requires Sorted(ByNode, tips) && 0 < k < |tips|
    requires forall i | 0 <= i < |out| :: !Less(tips[k - 1].node, out[i].node)
    requires tips[k - 1].node != tips[k].node
    ensures forall i | 0 <= i < |out| :: out[i].node != tips[k].node && !Less(tips[k].node, out[i].node)
  {
    hide Less;
    var a, b := tips[k - 1].node, tips[k].node;
    assert ByNode(tips[k - 1], tips[k]);
    LessConnected(a, b);
    forall i | 0 <= i < |out| ensures out[i].node != b && !Less(b, out[i].node) {
      var o := out[i].node;
      if o != a { LessConnected(o, a); }
      if Less(b, o) { LessTransitive(a, b, o); }
    }
  }
}
