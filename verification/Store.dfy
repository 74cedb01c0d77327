/** The audit table and the steps that change it: allocate and insert, mark
    shipped, redact, purge. Every run of steps leaves a table that verifies. */
module Store {
  import opened Text
  import opened Json
  import opened Timestamps
  import opened Rows
  import opened Sealing
  import opened RowLaws
  import opened PyRows
  import opened Verify
  import opened VerifyLaws

  /** By id, which is the primary key. */
  type Table = map<string, Row>

  const MAX_SEQ: int := 0x7fff_ffff_ffff_ffff

  /******* What the steps read *******/

  ghost function HighestSeq(t: Table, node: string): int
  {
    var seqs := Seqs(t.Values, node);
    if seqs == {} then 0 else Greatest(seqs)
  }

  /** The node's sealed row with the highest seq. */
  ghost predicate IsTip(t: Table, r: Row)
  {
    && r.id in t && t[r.id] == r && r.Sealed()
    && forall o | o in t.Values && o.node == r.node && o.Sealed() :: o.seqNo <= r.seqNo
  }

  /** What the next row of the node links to. */
  ghost predicate TipHash(t: Table, node: string, h: string)
  {
    if exists r :: r in t.Values && r.node == node && r.Sealed() then
      exists r | r in t.Values :: IsTip(t, r) && r.node == node && h == r.hash
    else h == GENESIS
  }

  predicate Young(r: Row, before: Time, respectUnshipped: bool)
  {
    r.timestamp >= before || (respectUnshipped && r.shippedAt.None?)
  }

  ghost function YoungSeqs(t: Table, node: string, before: Time, respectUnshipped: bool): set<int>
  {
    set r | r in t.Values && r.node == node && r.seqNo > 0 && Young(r, before, respectUnshipped) :: r.seqNo
  }

  /** The lowest seq of the node that a purge keeps. */
  ghost function KeepFrom(t: Table, node: string, before: Time, respectUnshipped: bool): int
  {
    var young := YoungSeqs(t, node, before, respectUnshipped);
    if young == {} then MAX_SEQ else Least(young).value
  }

  ghost predicate Purged(t: Table, r: Row, before: Time, respectUnshipped: bool)
  {
    r.seqNo < KeepFrom(t, r.node, before, respectUnshipped) && !Young(r, before, respectUnshipped)
  }

  /******* Steps *******/

  /** INSERT OR IGNORE: the id and the node's seq are unique. */
  ghost predicate Conflicts(t: Table, r: Row)
  {
    r.id in t || exists o :: o in t.Values && o.node == r.node && o.seqNo == r.seqNo
  }

  ghost function InsertRow(t: Table, r: Row): Table
  {
    if Conflicts(t, r) then t else t[r.id := AsStored(r)]
  }

  /** The row as allocated: next seq, linked to the tip, sealed. */
  ghost predicate Allocated(sha: string -> string, t: Table, row: Row, salt: string, sealed: Row)
  {
    exists h :: TipHash(t, row.node, h) && sealed == Seal(sha, h, row.(seqNo := HighestSeq(t, row.node) + 1), salt)
  }

  function MarkShipped(t: Table, ids: seq<string>, now: Time): Table
  {
    map id | id in t :: if id in ids then Ship(t[id], now) else t[id]
  }

  /** No hash covers the row's detail. */
  predicate Clears(r: Row) { r.formId == "2" || r.hash == "" }

  function RedactRows(t: Table, ids: seq<string>): Table
  {
    map id | id in t :: if id in ids && Clears(t[id]) then Redacted(t[id]) else t[id]
  }

  ghost function Purge(t: Table, before: Time, respectUnshipped: bool): Table
  {
    map id | id in t && !Purged(t, t[id], before, respectUnshipped) :: t[id]
  }

  datatype Step =
    | Allocating(row: Row, salt: string)
    | Shipping(ids: seq<string>, now: Time)
    | Redacting(ids: seq<string>)
    | Purging(before: Time, respectUnshipped: bool)

  /** One step from `t` to `u`. A row that claims another origin is refused. */
  ghost predicate Next(sha: string -> string, t: Table, step: Step, u: Table)
  {
    match step
    case Allocating(row, salt) =>
      salt != "" &&
      if row.originId != row.id then u == t
      else exists sealed :: Allocated(sha, t, row, salt, sealed) && u == InsertRow(t, sealed)
    case Shipping(ids, now) => u == MarkShipped(t, ids, now)
    case Redacting(ids) => u == RedactRows(t, ids)
    case Purging(before, respectUnshipped) => u == Purge(t, before, respectUnshipped)
  }

  ghost predicate Run(sha: string -> string, tables: seq<Table>, steps: seq<Step>)
  {
    |tables| == |steps| + 1 && forall i | 0 <= i < |steps| :: Next(sha, tables[i], steps[i], tables[i + 1])
  }

  /******* The invariant *******/

  /** What the database's keys enforce. */
  ghost predicate Keyed(t: Table)
  {
    && (forall id | id in t :: t[id].id == id)
    && (forall a, b | a in t.Values && b in t.Values && a.node == b.node && a.seqNo == b.seqNo :: a == b)
  }

  /** A row this store sealed, perhaps shipped or redacted since. */
  ghost predicate OwnSeal(sha: string -> string, r: Row)
  {
    WellSealed(sha, r) && r.seqNo >= 1 && r.wireVersion != "" && r.commitment != "" && DEL !in r.commitment
  }

  ghost predicate Ordered(t: Table)
  {
    && (forall r | r in t.Values :: r.seqNo >= 0)
    && (forall u, s | u in t.Values && s in t.Values && u.node == s.node && !u.Sealed() && s.Sealed() :: u.seqNo < s.seqNo)
  }

  ghost predicate Linked(t: Table)
  {
    forall p, r | r in t.Values && r.Sealed() && Precedes(t.Values, p, r) :: Links(p, r)
  }

  ghost predicate Chained(sha: string -> string, t: Table)
  {
    Keyed(t) && Ordered(t) && Linked(t) && forall r | r in t.Values && r.Sealed() :: OwnSeal(sha, r)
  }

  /** Where a run may start: nothing, or rows from before chaining. */
  ghost predicate Unchained(t: Table)
  {
    Keyed(t) && forall r | r in t.Values :: !r.Sealed() && r.seqNo >= 0
  }

  lemma UnchainedIsChained(sha: string -> string, t: Table)
    requires Unchained(t)
    ensures Chained(sha, t)
  {
  }

  /******* Each step keeps it *******/

  /** Rows alike in all that the chain looks at. */
  predicate SameChain(a: Row, b: Row)
  {
    a.id == b.id && a.node == b.node && a.seqNo == b.seqNo && a.hash == b.hash && a.prevHash == b.prevHash
  }

  ghost predicate UpdatedInPlace(t: Table, u: Table)
  {
    u.Keys == t.Keys && forall id | id in t :: SameChain(t[id], u[id])
  }

  lemma Counterpart(t: Table, u: Table, r: Row) returns (o: Row)
    requires UpdatedInPlace(t, u) && r in u.Values
    ensures o in t.Values && SameChain(o, r)
  {
    var id :| id in u && u[id] == r;
    o := t[id];
  }

  lemma UpdatedInPlaceBack(t: Table, u: Table)
    requires UpdatedInPlace(t, u)
    ensures UpdatedInPlace(u, t)
  {
  }

  lemma UpdateKeepsKeyed(t: Table, u: Table)
    requires UpdatedInPlace(t, u) && Keyed(t)
    ensures Keyed(u)
  {
    forall a, b | a in u.Values && b in u.Values && a.node == b.node && a.seqNo == b.seqNo ensures a == b {
      var i :| i in u && u[i] == a;
      var j :| j in u && u[j] == b;
      assert t[i] in t.Values && t[j] in t.Values && t[i] == t[j];
    }
  }

  lemma UpdateKeepsOrdered(t: Table, u: Table)
    requires UpdatedInPlace(t, u) && Ordered(t)
    ensures Ordered(u)
  {
    hide UpdatedInPlace;
    forall r | r in u.Values ensures r.seqNo >= 0 { var o := Counterpart(t, u, r); }
    forall a, s | a in u.Values && s in u.Values && a.node == s.node && !a.Sealed() && s.Sealed() ensures a.seqNo < s.seqNo {
      var a' := Counterpart(t, u, a);
      var s' := Counterpart(t, u, s);
    }
  }

  lemma UpdateKeepsLinked(t: Table, u: Table)
    requires UpdatedInPlace(t, u) && Linked(t)
    ensures Linked(u)
  {
    hide Links, UpdatedInPlace;
    UpdatedInPlaceBack(t, u);
    forall p, r | r in u.Values && r.Sealed() && Precedes(u.Values, p, r) ensures Links(p, r) {
      var p' := Counterpart(t, u, p);
      var r' := Counterpart(t, u, r);
      forall q | q in t.Values && q.node == r'.node && q.seqNo < r'.seqNo ensures q.seqNo <= p'.seqNo {
        var q' := Counterpart(u, t, q);
      }
      assert Precedes(t.Values, p', r');
      SameLinks(p', r', p, r);
    }
  }

  lemma SameLinks(p: Row, r: Row, q: Row, s: Row)
    requires SameChain(p, q) && SameChain(r, s)
    ensures Links(p, r) == Links(q, s)
  {
  }

  lemma UpdateKeepsChained(sha: string -> string, t: Table, u: Table)
    requires UpdatedInPlace(t, u) && Chained(sha, t)
    requires forall id | id in t && t[id].Sealed() && OwnSeal(sha, t[id]) :: OwnSeal(sha, u[id])
    ensures Chained(sha, u)
  {
    hide Keyed, Ordered, Linked, OwnSeal;
    UpdateKeepsKeyed(t, u);
    UpdateKeepsOrdered(t, u);
    UpdateKeepsLinked(t, u);
    forall r | r in u.Values && r.Sealed() ensures OwnSeal(sha, r) {
      var id :| id in u && u[id] == r;
      assert t[id] in t.Values;
    }
  }

  lemma ShippedSeal(sha: string -> string, r: Row, now: Time)
    requires OwnSeal(sha, r)
    ensures OwnSeal(sha, Ship(r, now)) && OwnSeal(sha, Redacted(r))
  {
    hide WellSealed;
    UpdatesKeepSeal(sha, r, now);
  }

  lemma ShippingKeepsChained(sha: string -> string, t: Table, ids: seq<string>, now: Time)
    requires Chained(sha, t)
    ensures Chained(sha, MarkShipped(t, ids, now))
  {
    hide Chained, OwnSeal;
    forall id | id in t && OwnSeal(sha, t[id]) ensures OwnSeal(sha, MarkShipped(t, ids, now)[id]) {
      ShippedSeal(sha, t[id], now);
    }
    UpdateKeepsChained(sha, t, MarkShipped(t, ids, now));
  }

  lemma RedactingKeepsChained(sha: string -> string, t: Table, ids: seq<string>)
    requires Chained(sha, t)
    ensures Chained(sha, RedactRows(t, ids))
  {
    hide Chained, OwnSeal;
    forall id | id in t && OwnSeal(sha, t[id]) ensures OwnSeal(sha, RedactRows(t, ids)[id]) {
      ShippedSeal(sha, t[id], 0);
    }
    UpdateKeepsChained(sha, t, RedactRows(t, ids));
  }

  /** A retry with the same ids changes nothing more. */
  lemma RedactTwice(t: Table, ids: seq<string>)
    ensures RedactRows(RedactRows(t, ids), ids) == RedactRows(t, ids)
  {
    var u := RedactRows(t, ids);
    forall id | id in u ensures RedactRows(u, ids)[id] == u[id] {
      assert Clears(u[id]) == Clears(t[id]) && Redacted(Redacted(t[id])) == Redacted(t[id]);
    }
  }

  /******* Allocation *******/

  lemma HighestBounds(t: Table, r: Row)
    requires r in t.Values
    ensures r.seqNo <= HighestSeq(t, r.node)
  {
    hide Greatest;
    assert r.seqNo in Seqs(t.Values, r.node);
  }

  lemma HighestNonNegative(t: Table, node: string)
    requires Ordered(t)
    ensures HighestSeq(t, node) >= 0
  {
    hide Greatest;
    var seqs := Seqs(t.Values, node);
    if seqs != {} { assert Greatest(seqs) in seqs; }
  }

  lemma AddedRow(t: Table, s: Row)
    requires s.id !in t
    ensures t[s.id := s].Values == t.Values + {s}
  {
    var u := t[s.id := s];
    forall r | r in t.Values + {s} ensures r in u.Values {
      if r == s {
        assert u[s.id] == s;
      } else {
        var id :| id in t && t[id] == r;
        assert u[id] == r;
      }
    }
  }

  /** A row above all others of its node that links to the tip. */
  ghost predicate GoesOnTop(t: Table, s: Row)
  {
    && s.id !in t && s.Sealed() && s.seqNo >= 1
    && (forall o | o in t.Values && o.node == s.node :: o.seqNo < s.seqNo)
    && TipHash(t, s.node, s.prevHash)
  }

  lemma TopLinks(t: Table, s: Row, p: Row)
    requires Keyed(t) && Ordered(t) && GoesOnTop(t, s) && p in t.Values && p.node == s.node
    requires forall q | q in t.Values && q.node == s.node :: q.seqNo <= p.seqNo
    ensures Links(p, s)
  {
    if exists r :: r in t.Values && r.node == s.node && r.Sealed() {
      var r :| r in t.Values && IsTip(t, r) && r.node == s.node && s.prevHash == r.hash;
      assert p == r;
    }
  }

  lemma TopKeepsLinked(t: Table, s: Row)
    requires Keyed(t) && Ordered(t) && Linked(t) && GoesOnTop(t, s)
    ensures Linked(t[s.id := s])
  {
    hide Links, Keyed, Ordered;
    AddedRow(t, s);
    var u := t[s.id := s];
    forall p, r | r in u.Values && r.Sealed() && Precedes(u.Values, p, r) ensures Links(p, r) {
      if r == s {
        TopLinks(t, s, p);
      } else {
        assert Precedes(t.Values, p, r);
      }
    }
  }

  lemma TopKeepsKeyed(t: Table, s: Row)
    requires Keyed(t) && Ordered(t) && GoesOnTop(t, s)
    ensures Keyed(t[s.id := s]) && Ordered(t[s.id := s])
  {
    hide TipHash;
    AddedRow(t, s);
  }

  lemma TopKeepsChained(sha: string -> string, t: Table, s: Row)
    requires Chained(sha, t) && GoesOnTop(t, s) && OwnSeal(sha, s)
    ensures Chained(sha, t[s.id := s])
  {
    hide Keyed, Ordered, Linked, OwnSeal, GoesOnTop;
    TopKeepsLinked(t, s);
    TopKeepsKeyed(t, s);
    NotYetIn(t, s);
    AddedRow(t, s);
  }

  lemma NotYetIn(t: Table, s: Row)
    requires GoesOnTop(t, s)
    ensures s.id !in t
  {
  }

  lemma AllocatedSeal(sha: string -> string, h: string, row: Row, salt: string)
    requires DigestLike(sha) && salt != "" && row.seqNo >= 1
    ensures OwnSeal(sha, AsStored(Seal(sha, h, row, salt))) && AsStored(Seal(sha, h, row, salt)).Sealed()
  {
    hide WellSealed, Form2, Commit, Digest;
    SealIsWellSealed(sha, h, row, salt);
    UpdatesKeepSeal(sha, Seal(sha, h, row, salt), 0);
    CommitIsDigest(sha, if row.salt == "" then salt else row.salt, row.detail, false);
    DigestIsDigest(sha, Form2(Seal(sha, h, row, salt).(hash := row.hash)), false);
  }

  lemma CommitIsDigest(sha: string -> string, salt: string, d: Option<Members>, raw: bool)
    requires DigestLike(sha)
    ensures Commit(sha, salt, d, raw) != "" && DEL !in Commit(sha, salt, d, raw)
  {
  }

  lemma DigestIsDigest(sha: string -> string, v: Json, raw: bool)
    requires DigestLike(sha)
    ensures Digest(sha, v, raw) != ""
  {
  }

  lemma AllocatingKeepsChained(sha: string -> string, t: Table, row: Row, salt: string, sealed: Row)
    requires Chained(sha, t) && DigestLike(sha) && salt != "" && Allocated(sha, t, row, salt, sealed)
    ensures Chained(sha, InsertRow(t, sealed))
  {
    hide TipHash, OwnSeal, Seal, Keyed, Linked, HighestSeq, DigestLike;
    var h :| TipHash(t, row.node, h) && sealed == Seal(sha, h, row.(seqNo := HighestSeq(t, row.node) + 1), salt);
    SealFields(sha, h, row.(seqNo := HighestSeq(t, row.node) + 1), salt);
    HighestNonNegative(t, row.node);
    forall o | o in t.Values && o.node == row.node ensures o.seqNo < sealed.seqNo { HighestBounds(t, o); }
    if !Conflicts(t, sealed) {
      AllocatedSeal(sha, h, row.(seqNo := HighestSeq(t, row.node) + 1), salt);
      TopKeepsChained(sha, t, AsStored(sealed));
    }
  }

  /** A new row follows its node's tip without a gap and links to it; on a node
      with no sealed row, fully purged or not yet chained, it links to
      "genesis", and the numbers start over only when no row is left. */
  lemma AllocationLinks(sha: string -> string, t: Table, row: Row, salt: string, sealed: Row)
    requires Chained(sha, t) && Allocated(sha, t, row, salt, sealed)
    ensures forall tip | IsTip(t, tip) && tip.node == row.node :: sealed.seqNo == tip.seqNo + 1 && sealed.prevHash == tip.hash
    ensures (forall o | o in t.Values && o.node == row.node :: !o.Sealed()) ==> sealed.prevHash == GENESIS
    ensures (forall o | o in t.Values :: o.node != row.node) ==> sealed.seqNo == 1
  {
    hide Seal, Linked, OwnSeal, Greatest;
    var h :| TipHash(t, row.node, h) && sealed == Seal(sha, h, row.(seqNo := HighestSeq(t, row.node) + 1), salt);
    SealFields(sha, h, row.(seqNo := HighestSeq(t, row.node) + 1), salt);
    forall tip | IsTip(t, tip) && tip.node == row.node ensures sealed.seqNo == tip.seqNo + 1 && sealed.prevHash == tip.hash {
      assert tip in t.Values;
      TipIsHighest(t, tip);
      var r :| r in t.Values && IsTip(t, r) && r.node == row.node && h == r.hash;
      assert r.seqNo == tip.seqNo;
    }
  }

  lemma TipIsHighest(t: Table, tip: Row)
    requires Keyed(t) && Ordered(t) && IsTip(t, tip) && tip in t.Values
    ensures HighestSeq(t, tip.node) == tip.seqNo
  {
    hide Greatest;
    var seqs := Seqs(t.Values, tip.node);
    assert tip.seqNo in seqs;
    var top := Greatest(seqs);
    assert forall x :: x in seqs ==> x <= top;
    var o :| o in t.Values && o.node == tip.node && o.seqNo == top;
  }

  lemma SealFields(sha: string -> string, h: string, row: Row, salt: string)
    ensures var s := Seal(sha, h, row, salt);
      s.id == row.id && s.node == row.node && s.seqNo == row.seqNo && s.prevHash == h && s.originId == row.originId
  {
  }

  /******* Purge *******/

  /** A purge keeps, of each node, exactly the rows from one seq on; rows at
      seq 0 go by age alone. */
  lemma PurgeKeepsSuffix(t: Table, before: Time, respectUnshipped: bool, r: Row)
    requires Keyed(t) && r in t.Values
    ensures r.seqNo > 0 ==>
      (r in Purge(t, before, respectUnshipped).Values <==> r.seqNo >= KeepFrom(t, r.node, before, respectUnshipped))
    ensures r.seqNo <= 0 ==>
      (r in Purge(t, before, respectUnshipped).Values <==> Young(r, before, respectUnshipped))
  {
    hide Least;
    var u := Purge(t, before, respectUnshipped);
    var young := YoungSeqs(t, r.node, before, respectUnshipped);
    var id :| id in t && t[id] == r;
    if r in u.Values {
      var k :| k in u && u[k] == r;
      assert k == id;
    } else {
      assert id !in u;
    }
    if r.seqNo > 0 && Young(r, before, respectUnshipped) {
      assert r.seqNo in young;
    }
  }

  lemma PurgedRows(t: Table, before: Time, respectUnshipped: bool)
    ensures forall r | r in Purge(t, before, respectUnshipped).Values :: r in t.Values
    ensures Keyed(t) ==> Keyed(Purge(t, before, respectUnshipped))
    ensures Ordered(t) ==> Ordered(Purge(t, before, respectUnshipped))
  {
    var u := Purge(t, before, respectUnshipped);
    forall r | r in u.Values ensures r in t.Values {
      var id :| id in u && u[id] == r;
      assert t[id] == r;
    }
  }

  lemma PurgeKeepsLinked(t: Table, before: Time, respectUnshipped: bool)
    requires Keyed(t) && Ordered(t) && Linked(t) && forall r | r in t.Values && r.Sealed() :: r.seqNo >= 1
    ensures Linked(Purge(t, before, respectUnshipped))
  {
    hide Purge, Keyed, KeepFrom;
    var u := Purge(t, before, respectUnshipped);
    PurgedRows(t, before, respectUnshipped);
    forall p, r | r in u.Values && r.Sealed() && Precedes(u.Values, p, r) ensures Links(p, r) {
      if !Precedes(t.Values, p, r) {
        var q :| q in t.Values && q.node == r.node && q.seqNo < r.seqNo && q.seqNo > p.seqNo;
        PurgeKeepsSuffix(t, before, respectUnshipped, p);
        PurgeKeepsSuffix(t, before, respectUnshipped, q);
        assert q !in u.Values;
        assert p.seqNo == 0 && !p.Sealed();
      }
    }
  }

  lemma PurgingKeepsChained(sha: string -> string, t: Table, before: Time, respectUnshipped: bool)
    requires Chained(sha, t)
    ensures Chained(sha, Purge(t, before, respectUnshipped))
  {
    hide Purge, Keyed, Ordered, Linked, WellSealed;
    PurgedRows(t, before, respectUnshipped);
    PurgeKeepsLinked(t, before, respectUnshipped);
  }

  /******* Runs *******/

  lemma StepKeepsChained(sha: string -> string, t: Table, step: Step, u: Table)
    requires DigestLike(sha) && Chained(sha, t) && Next(sha, t, step, u)
    ensures Chained(sha, u)
  {
    hide Chained, Allocated, InsertRow, MarkShipped, RedactRows, Purge, DigestLike;
    match step
    case Allocating(row, salt) =>
      if row.originId == row.id {
        var sealed :| Allocated(sha, t, row, salt, sealed) && u == InsertRow(t, sealed);
        AllocatingKeepsChained(sha, t, row, salt, sealed);
      }
    case Shipping(ids, now) => ShippingKeepsChained(sha, t, ids, now);
    case Redacting(ids) => RedactingKeepsChained(sha, t, ids);
    case Purging(before, respectUnshipped) => PurgingKeepsChained(sha, t, before, respectUnshipped);
  }

  lemma {:induction false} RunKeepsChained(sha: string -> string, tables: seq<Table>, steps: seq<Step>, k: nat)
    requires DigestLike(sha) && Run(sha, tables, steps) && k < |tables| && Chained(sha, tables[0])
    ensures Chained(sha, tables[k])
  {
    hide Next, Chained, DigestLike;
    if k > 0 {
      RunKeepsChained(sha, tables, steps, k - 1);
      StepKeepsChained(sha, tables[k - 1], steps[k - 1], tables[k]);
    }
  }

  /** The table's rows, each once, in any order. */
  ghost predicate Lists(rows: seq<Row>, t: Table)
  {
    Distinct(rows) && RowSet(rows) == t.Values
  }

  lemma OwnSealPortable(sha: string -> string, r: Row)
    requires OwnSeal(sha, r)
    ensures Portable(r)
  {
    hide RowHasDel, Form2, Digest;
  }

  lemma ChainedRowsOk(sha: string -> string, t: Table, r: Row)
    requires Chained(sha, t) && r in t.Values
    ensures !Broken(GoCheck(sha), t.Values, r)
  {
    hide RowOk, WellSealed;
    if r.Sealed() {
      WellSealedOk(sha, r);
      assert !SeqTaken(t.Values, r);
      assert !BadLink(t.Values, r);
    }
  }

  /** A chained table verifies, by either SDK. */
  lemma ChainedVerifies(sha: string -> string, t: Table, rows: seq<Row>)
    requires Chained(sha, t) && Lists(rows, t)
    ensures FirstBreak(GoCheck(sha), rows, [], false) == None
    ensures FirstBreak(PyCheck(sha), rows, [], false) == None
  {
    hide Chained, Distinct, Broken, FirstBreak, Portable;
    forall r | r in rows ensures !Broken(GoCheck(sha), RowSet(rows), r) { ChainedRowsOk(sha, t, r); }
    IntactRows(GoCheck(sha), rows);
    forall r | r in rows && r.Sealed() ensures Portable(r) {
      assert r in t.Values;
      ChainedSeal(sha, t, r);
      OwnSealPortable(sha, r);
    }
    VerdictsAgree(sha, rows, [], false);
  }

  lemma ChainedSeal(sha: string -> string, t: Table, r: Row)
    requires Chained(sha, t) && r in t.Values && r.Sealed()
    ensures OwnSeal(sha, r)
  {
  }

  /** From a table of unsealed rows, every run of steps on any nodes leaves one
      that verifies after each step. */
  lemma EveryRunVerifies(sha: string -> string, tables: seq<Table>, steps: seq<Step>, k: nat, rows: seq<Row>)
    requires DigestLike(sha) && Run(sha, tables, steps) && Unchained(tables[0]) && k < |tables| && Lists(rows, tables[k])
    ensures FirstBreak(GoCheck(sha), rows, [], false) == None
    ensures FirstBreak(PyCheck(sha), rows, [], false) == None
  {
    hide Chained, Run, Lists, FirstBreak, Unchained;
    UnchainedIsChained(sha, tables[0]);
    RunKeepsChained(sha, tables, steps, k);
    ChainedVerifies(sha, tables[k], rows);
  }

  /******* Checkpoints of the table *******/

  /** TakeCheckpoints: one per node with a sealed row, from its tip. */
  ghost predicate TakenFrom(t: Table, cp: Checkpoint)
  {
    exists r | r in t.Values :: IsTip(t, r) && cp.node == r.node && cp.seqNo == r.seqNo && cp.hash == r.hash
  }

  lemma StepKeepsHashes(sha: string -> string, t: Table, step: Step, u: Table, cp: Checkpoint)
    requires Next(sha, t, step, u) && !step.Purging? && Witnessed(t.Values, cp)
    ensures Witnessed(u.Values, cp)
  {
    hide Allocated;
    var r :| r in t.Values && r.node == cp.node && r.seqNo == cp.seqNo && r.hash == cp.hash;
    var id :| id in t && t[id] == r;
    assert id in u && u[id].node == r.node && u[id].seqNo == r.seqNo && u[id].hash == r.hash;
    assert u[id] in u.Values;
  }

  lemma {:induction false} RunKeepsHashes(sha: string -> string, tables: seq<Table>, steps: seq<Step>, i: nat, k: nat, cp: Checkpoint)
    requires Run(sha, tables, steps) && i <= k < |tables| && Witnessed(tables[i].Values, cp)
    requires forall j | i <= j < k :: !steps[j].Purging?
    ensures Witnessed(tables[k].Values, cp)
    decreases k
  {
    hide Next, Witnessed;
    if i < k {
      RunKeepsHashes(sha, tables, steps, i, k - 1, cp);
      StepKeepsHashes(sha, tables[k - 1], steps[k - 1], tables[k], cp);
    }
  }

  /** Every checkpoint was taken from some table of the run, with no purge since. */
  ghost predicate TakenSincePurge(tables: seq<Table>, steps: seq<Step>, k: nat, cp: Checkpoint)
    requires k < |tables| == |steps| + 1
  {
    exists i | 0 <= i <= k :: TakenFrom(tables[i], cp) && forall j | i <= j < k :: !steps[j].Purging?
  }

  lemma TakenIsWitnessed(t: Table, cp: Checkpoint)
    requires TakenFrom(t, cp)
    ensures Witnessed(t.Values, cp)
  {
  }

  lemma TakenStays(sha: string -> string, tables: seq<Table>, steps: seq<Step>, k: nat, cp: Checkpoint)
    requires Run(sha, tables, steps) && k < |tables| && TakenSincePurge(tables, steps, k, cp)
    ensures Witnessed(tables[k].Values, cp)
  {
    hide Next, Witnessed, TakenFrom;
    var i :| 0 <= i <= k && TakenFrom(tables[i], cp) && forall j | i <= j < k :: !steps[j].Purging?;
    TakenIsWitnessed(tables[i], cp);
    RunKeepsHashes(sha, tables, steps, i, k, cp);
  }

  /** A whole-chain verify accepts all checkpoints taken since the last purge,
      whatever was allocated, shipped or redacted after them. */
  lemma CheckpointsSincePurgeAccepted(sha: string -> string, tables: seq<Table>, steps: seq<Step>, k: nat,
                                      rows: seq<Row>, cps: seq<Checkpoint>)
    requires DigestLike(sha) && Run(sha, tables, steps) && Unchained(tables[0]) && k < |tables| && Lists(rows, tables[k])
    requires forall cp | cp in cps :: TakenSincePurge(tables, steps, k, cp)
    ensures FirstBreak(GoCheck(sha), rows, cps, false) == None
    ensures FirstBreak(PyCheck(sha), rows, cps, false) == None
  {
    hide Next, FirstBreak, Witnessed, TakenSincePurge, Unchained, Distinct;
    EveryRunVerifies(sha, tables, steps, k, rows);
    forall cp | cp in cps ensures Witnessed(tables[k].Values, cp) { TakenStays(sha, tables, steps, k, cp); }
    GivenOnce(GoCheck(sha), rows);
    WholeChainExact(GoCheck(sha), rows, cps);
    WholeChainExact(PyCheck(sha), rows, cps);
  }

  /******* What allocation returns *******/

  /** SQLite returns the row it sealed even when the insert was ignored because
      the id is taken; then nothing it returns need be stored. */
  lemma SqliteReturnsStored(sha: string -> string, t: Table, row: Row, salt: string, sealed: Row)
    requires Chained(sha, t) && DigestLike(sha) && salt != "" && Allocated(sha, t, row, salt, sealed)
    ensures var u := InsertRow(t, sealed);
      (sealed.id in u && SameChain(u[sealed.id], sealed)) <==> row.id !in t
  {
    hide TipHash, Seal, HighestSeq, Linked, OwnSeal;
    var h :| TipHash(t, row.node, h) && sealed == Seal(sha, h, row.(seqNo := HighestSeq(t, row.node) + 1), salt);
    SealFields(sha, h, row.(seqNo := HighestSeq(t, row.node) + 1), salt);
    forall o | o in t.Values && o.node == row.node ensures o.seqNo < sealed.seqNo { HighestBounds(t, o); }
    if row.id in t {
      assert t[row.id] in t.Values;
    }
  }

  /** Postgres looks the id up first and returns what is stored under it; it
      refuses a row that claims another origin. */
  ghost predicate PostgresReturns(sha: string -> string, t: Table, row: Row, salt: string, u: Table, result: Option<Row>)
  {
    if row.originId != row.id then u == t && result == None
    else if row.id in t then
      var s := t[row.id];
      u == t && result == Some(row.(seqNo := s.seqNo, prevHash := s.prevHash, hash := s.hash, formId := s.formId))
    else result.Some? && Allocated(sha, t, row, salt, result.value) && u == InsertRow(t, result.value)
  }

  /** So a retry after a lost reply gets the seq, link and hash of the first try. */
  lemma PostgresReturnsStored(sha: string -> string, t: Table, row: Row, salt: string, u: Table, result: Option<Row>)
    requires Chained(sha, t) && DigestLike(sha) && salt != "" && PostgresReturns(sha, t, row, salt, u, result)
    ensures result.Some? <==> row.originId == row.id
    ensures result.Some? ==> row.id in u && u[row.id].seqNo == result.value.seqNo
                             && u[row.id].prevHash == result.value.prevHash && u[row.id].hash == result.value.hash
    ensures result.None? || row.id in t ==> u == t
    ensures Chained(sha, u)
  {
    hide Chained, Allocated, InsertRow, SameChain;
    if result.Some? && row.id !in t {
      AllocatedId(sha, t, row, salt, result.value);
      SqliteReturnsStored(sha, t, row, salt, result.value);
      AllocatingKeepsChained(sha, t, row, salt, result.value);
      ChainFields(u[row.id], result.value);
    }
  }

  lemma ChainFields(a: Row, b: Row)
    requires SameChain(a, b)
    ensures a.seqNo == b.seqNo && a.prevHash == b.prevHash && a.hash == b.hash
  {
  }

  lemma AllocatedId(sha: string -> string, t: Table, row: Row, salt: string, sealed: Row)
    requires Allocated(sha, t, row, salt, sealed)
    ensures sealed.id == row.id
  {
    hide TipHash, Digest, Commit, HighestSeq;
  }
}
