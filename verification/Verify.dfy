/** What a chain verify reports, without reference to any walk order: the
    lowest seq among the breaks that the rows, their duplicate copies and the
    published checkpoints contain. `check` is the check of one sealed row. */
module Verify {
  import opened Text
  import opened Rows

  /******* Lowest of the breaks *******/

  /** The lower of two breaks, either of which may be missing. */
  function Lower(a: Option<int>, b: Option<int>): Option<int>
  {
    if a.None? then b else if b.None? || a.value <= b.value then a else b
  }

  ghost function Any<T>(s: set<T>): (x: T)
    requires s != {}
    ensures x in s
  {
    var x :| x in s; x
  }

  ghost function Least(s: set<int>): (m: Option<int>)
    ensures m.None? <==> s == {}
    ensures m.Some? ==> m.value in s && forall x :: x in s ==> m.value <= x
  {
    if s == {} then None
    else
      var x := Any(s);
      assert forall y :: y in s ==> y == x || y in s - {x};
      Lower(Some(x), Least(s - {x}))
  }

  lemma LeastIs(s: set<int>, x: int)
    requires x in s && forall y :: y in s ==> x <= y
    ensures Least(s) == Some(x)
  {
    hide Least;
    var m := Least(s);
    assert m.Some? && m.value in s;
  }

  lemma LeastUnion(s: set<int>, t: set<int>)
    ensures Least(s + t) == Lower(Least(s), Least(t))
  {
    hide Least;
    var m := Lower(Least(s), Least(t));
    if m.Some? { LeastIs(s + t, m.value); }
  }

  ghost function Greatest(s: set<int>): (m: int)
    requires s != {}
    ensures m in s && forall x :: x in s ==> x <= m
  {
    var x := Any(s);
    assert forall y :: y in s ==> y == x || y in s - {x};
    if s - {x} == {} then x
    else
      var m := Greatest(s - {x});
      if x > m then x else m
  }

  /******* One copy per row *******/

  predicate SameRow(a: Row, b: Row) { a.node == b.node && a.id == b.id }

  predicate Distinct(rows: seq<Row>)
  {
    forall i, j | 0 <= i < j < |rows| :: !SameRow(rows[i], rows[j])
  }

  /** What tells rows apart. */
  function RowKey(r: Row): (string, string) { (r.node, r.id) }

  /** Where the row with the key of `r` is, or the length if there is none. */
  function IndexBy<K(==)>(key: Row -> K, kept: seq<Row>, r: Row): (i: nat)
    ensures i <= |kept|
    ensures i < |kept| ==> key(kept[i]) == key(r)
    ensures forall j | 0 <= j < i :: key(kept[j]) != key(r)
  {
    if kept == [] || key(kept[0]) == key(r) then 0 else 1 + IndexBy(key, kept[1..], r)
  }

  /** A sealed copy replaces an unsealed one; any other copy is dropped. */
  function KeepBy<K(==)>(key: Row -> K, kept: seq<Row>, r: Row): seq<Row>
  {
    var i := IndexBy(key, kept, r);
    if i == |kept| then kept + [r]
    else if !kept[i].Sealed() && r.Sealed() then kept[i := r]
    else kept
  }

  function KeptBy<K(==)>(key: Row -> K, rows: seq<Row>): seq<Row>
  {
    if rows == [] then [] else KeepBy(key, KeptBy(key, rows[..|rows| - 1]), rows[|rows| - 1])
  }

  function LowerSeq(a: Row, b: Row): int { if a.seqNo < b.seqNo then a.seqNo else b.seqNo }

  /** A second sealed copy must have the kept copy's hash, and check out. */
  function CopyBreakBy<K(==)>(key: Row -> K, check: Row -> bool, kept: seq<Row>, r: Row): Option<int>
  {
    var i := IndexBy(key, kept, r);
    if i < |kept| && kept[i].Sealed() && r.Sealed() && (r.hash != kept[i].hash || !check(r)) then
      Some(LowerSeq(r, kept[i]))
    else None
  }

  function CopyBreaksBy<K(==)>(key: Row -> K, check: Row -> bool, rows: seq<Row>): set<int>
  {
    if rows == [] then {}
    else
      var front, r := rows[..|rows| - 1], rows[|rows| - 1];
      var b := CopyBreakBy(key, check, KeptBy(key, front), r);
      CopyBreaksBy(key, check, front) + if b.Some? then {b.value} else {}
  }

  function IndexOf(kept: seq<Row>, r: Row): (i: nat)
    ensures i <= |kept|
    ensures i < |kept| ==> SameRow(kept[i], r)
    ensures forall j | 0 <= j < i :: !SameRow(kept[j], r)
  {
    IndexBy(RowKey, kept, r)
  }

  function Keep(kept: seq<Row>, r: Row): seq<Row> { KeepBy(RowKey, kept, r) }

  function Kept(rows: seq<Row>): seq<Row> { KeptBy(RowKey, rows) }

  function CopyBreak(check: Row -> bool, kept: seq<Row>, r: Row): Option<int> { CopyBreakBy(RowKey, check, kept, r) }

  function CopyBreaks(check: Row -> bool, rows: seq<Row>): set<int> { CopyBreaksBy(RowKey, check, rows) }

  /******* Breaks in the chains *******/

  /** Whether `r` may follow `p` on its node. */
  predicate Links(p: Row, r: Row)
  {
    if p.Sealed() then r.prevHash == p.hash
    else p.seqNo == r.seqNo - 1 ==> r.prevHash == GENESIS
  }

  /** `p` is at the highest seq of its node below `r`. */
  ghost predicate Precedes(rows: set<Row>, p: Row, r: Row)
  {
    && p in rows && p.node == r.node && p.seqNo < r.seqNo
    && forall q :: q in rows && q.node == r.node && q.seqNo < r.seqNo ==> q.seqNo <= p.seqNo
  }

  ghost predicate SeqTaken(rows: set<Row>, r: Row)
  {
    exists o :: o in rows && o.node == r.node && o.seqNo == r.seqNo && o.Sealed() && o.id != r.id
  }

  ghost predicate BadLink(rows: set<Row>, r: Row)
  {
    exists p :: Precedes(rows, p, r) && !Links(p, r)
  }

  ghost predicate SealedBelow(rows: set<Row>, r: Row)
  {
    exists o :: o in rows && o.node == r.node && o.Sealed() && o.seqNo <= r.seqNo
  }

  ghost predicate Broken(check: Row -> bool, rows: set<Row>, r: Row)
  {
    if r.Sealed() then SeqTaken(rows, r) || !check(r) || BadLink(rows, r)
    else SealedBelow(rows, r)
  }

  ghost function ChainBreaks(check: Row -> bool, rows: set<Row>): set<int>
  {
    set r | r in rows && Broken(check, rows, r) :: r.seqNo
  }

  /******* Breaks against checkpoints *******/

  ghost function Seqs(rows: set<Row>, node: string): set<int>
  {
    set r | r in rows && r.node == node :: r.seqNo
  }

  predicate Newest(cps: seq<Checkpoint>, cp: Checkpoint)
  {
    forall c | c in cps && c.node == cp.node :: c.seqNo <= cp.seqNo
  }

  /** A row of the checkpoint's node and seq that has its hash. */
  ghost predicate Witnessed(rows: set<Row>, cp: Checkpoint)
  {
    exists r :: r in rows && r.node == cp.node && r.seqNo == cp.seqNo && r.hash == cp.hash
  }

  ghost function CheckpointBreak(rows: set<Row>, cps: seq<Checkpoint>, partial: bool, cp: Checkpoint): Option<int>
  {
    var seqs := Seqs(rows, cp.node);
    if seqs == {} then (if !partial && Newest(cps, cp) then Some(cp.seqNo) else None)
    else if Witnessed(rows, cp) then None
    else if cp.seqNo in seqs then Some(cp.seqNo)
    else if cp.seqNo > Greatest(seqs) then (if partial then None else Some(Greatest(seqs) + 1))
    else if cp.seqNo < Least(seqs).value then (if partial then None else Least(seqs))
    else Some(cp.seqNo)
  }

  ghost function CheckpointBreaks(rows: set<Row>, cps: seq<Checkpoint>, partial: bool): set<int>
  {
    set cp | cp in cps && CheckpointBreak(rows, cps, partial, cp).Some? :: CheckpointBreak(rows, cps, partial, cp).value
  }

  /******* The verdict *******/

  function RowSet(rows: seq<Row>): set<Row> { set r | r in rows }

  /** Where the rows break first, if they do. */
  ghost function FirstBreak(check: Row -> bool, rows: seq<Row>, cps: seq<Checkpoint>, partial: bool): Option<int>
  {
    var kept := RowSet(Kept(rows));
    Least(CopyBreaks(check, rows) + ChainBreaks(check, kept) + CheckpointBreaks(kept, cps, partial))
  }

  /** The same where rows with one key are taken for copies of one row. */
  ghost function FirstBreakBy<K>(key: Row -> K, check: Row -> bool, rows: seq<Row>, cps: seq<Checkpoint>, partial: bool): Option<int>
  {
    var kept := RowSet(KeptBy(key, rows));
    Least(CopyBreaksBy(key, check, rows) + ChainBreaks(check, kept) + CheckpointBreaks(kept, cps, partial))
  }

  /******* Which copies are kept *******/

  lemma {:induction false} KeptDistinct(rows: seq<Row>)
    ensures Distinct(Kept(rows))
  {
    if rows != [] { KeptDistinct(rows[..|rows| - 1]); }
  }

  /** The first sealed copy of a row, or its first copy if none is sealed. */
  predicate Chosen(rows: seq<Row>, i: nat)
    requires i < |rows|
  {
    && (forall j | 0 <= j < i :: SameRow(rows[j], rows[i]) ==> !rows[j].Sealed() && rows[i].Sealed())
    && (!rows[i].Sealed() ==> forall j | 0 <= j < |rows| :: SameRow(rows[j], rows[i]) ==> !rows[j].Sealed())
  }

  lemma KeptLast(rows: seq<Row>)
    requires rows != []
    ensures Kept(rows) == Keep(Kept(rows[..|rows| - 1]), rows[|rows| - 1])
  {
    hide KeepBy;
  }

  lemma BreaksLast(check: Row -> bool, rows: seq<Row>)
    requires rows != []
    ensures var front, r := rows[..|rows| - 1], rows[|rows| - 1];
      var b := CopyBreak(check, Kept(front), r);
      CopyBreaks(check, rows) == CopyBreaks(check, front) + if b.Some? then {b.value} else {}
  {
    hide KeptBy, CopyBreakBy;
  }

  lemma CopiesStepBy<K>(key: Row -> K, check: Row -> bool, rows: seq<Row>, n: nat)
    requires n < |rows|
    ensures var kept, b := KeptBy(key, rows[..n]), CopyBreakBy(key, check, KeptBy(key, rows[..n]), rows[n]);
      && KeptBy(key, rows[..n + 1]) == KeepBy(key, kept, rows[n])
      && Least(CopyBreaksBy(key, check, rows[..n + 1])) == Lower(Least(CopyBreaksBy(key, check, rows[..n])), b)
  {
    hide Least, KeepBy, CopyBreakBy;
    assert rows[..n + 1][..n] == rows[..n];
    var b := CopyBreakBy(key, check, KeptBy(key, rows[..n]), rows[n]);
    if b.Some? {
      LeastUnion(CopyBreaksBy(key, check, rows[..n]), {b.value});
      LeastIs({b.value}, b.value);
    } else {
      assert CopyBreaksBy(key, check, rows[..n]) + {} == CopyBreaksBy(key, check, rows[..n]);
    }
  }

  lemma CopiesStep(check: Row -> bool, rows: seq<Row>, n: nat)
    requires n < |rows|
    ensures var kept, b := Kept(rows[..n]), CopyBreak(check, Kept(rows[..n]), rows[n]);
      && Kept(rows[..n + 1]) == Keep(kept, rows[n])
      && Least(CopyBreaks(check, rows[..n + 1])) == Lower(Least(CopyBreaks(check, rows[..n])), b)
      && Distinct(kept)
  {
    hide Least, KeepBy, CopyBreakBy, KeptBy, CopyBreaksBy, Distinct;
    KeptDistinct(rows[..n]);
    CopiesStepBy(RowKey, check, rows, n);
  }

  lemma NothingToVerify(check: Row -> bool, cps: seq<Checkpoint>, partial: bool)
    requires partial || cps == []
    ensures FirstBreak(check, [], cps, partial) == None
  {
    assert forall cp: Checkpoint :: Seqs({}, cp.node) == {};
  }
}
