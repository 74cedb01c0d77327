/** Replication ingest: what of a batch is stored and where the sender is told
    to resume. The batch is cut at its own first break, then at the first row
    that clashes with what is stored; what is left is inserted. A reported 0
    says that nothing was rejected, so a break or a clash at seq 0 is passed
    over. */
module IngestSpec {
  import opened Text
  import opened Rows
  import opened Sealing
  import opened RowLaws
  import opened Sorting
  import opened Verify
  import opened Copies
  import opened VerifyLaws
  import opened Walk
  import opened GoVerifier
  import opened Store

  /** RejectedFromSeq 0 says that nothing was rejected. */
  datatype IngestResult = IngestResult(inserted: nat, rejectedFromSeq: int)

  /******* The batch on its own *******/

  function Sequenced(rows: seq<Row>): seq<Row> { Sort(BySeq, rows) }

  /** Where Go's verify of the batch finds its first break. */
  ghost function BatchCut(check: Row -> bool, rows: seq<Row>): Option<int>
  {
    FirstBreakBy(JoinedKey, check, Sequenced(rows), [], false)
  }

  function CutSeq(cut: Option<int>): int { if cut.Some? then cut.value else 0 }

  predicate Below(r: Row, cut: Option<int>) { cut.Some? ==> r.seqNo < cut.value }

  /** Below a seq that was reported; 0 reports none. */
  predicate Before(r: Row, reported: int) { reported == 0 || r.seqNo < reported }

  type CopyKey = (string, string, string)

  function KeyOf(r: Row): CopyKey { (r.id, r.node, r.hash) }

  /** `r` is at `n`, the first sealed row with its key. */
  predicate FirstWithKey(sorted: seq<Row>, n: nat, r: Row)
  {
    n < |sorted| && sorted[n] == r && r.Sealed() && forall j | 0 <= j < n :: !(sorted[j].Sealed() && KeyOf(sorted[j]) == KeyOf(r))
  }

  predicate IsFirst(sorted: seq<Row>, i: nat, r: Row) { exists n: nat | n < i :: FirstWithKey(sorted, n, r) }

  /** The sealed rows before the first break, the first copy of each. */
  ghost function Prefix(check: Row -> bool, rows: seq<Row>): set<Row>
  {
    set r | r in Sequenced(rows) && IsFirst(Sequenced(rows), |Sequenced(rows)|, r) && Below(r, BatchCut(check, rows))
  }

  /** The unsealed rows before the first break; all of them if that is at 0. */
  ghost function Skipped(check: Row -> bool, rows: seq<Row>): set<Row>
  {
    set r | r in rows && !r.Sealed() && Before(r, CutSeq(BatchCut(check, rows)))
  }

  /******* The batch against the store *******/

  ghost predicate StoredBelow(t: Table, u: Row)
  {
    exists o :: o in t.Values && o.node == u.node && o.Sealed() && o.seqNo < u.seqNo
  }

  /** Another row with the id comes first in the batch. */
  ghost predicate IdTaken(prefix: set<Row>, r: Row)
  {
    exists o :: o in prefix && o.id == r.id && o != r && BySeqThenNode(o, r)
  }

  /** What a row at the next seq links to. */
  function LinkTarget(p: Row): string { if p.Sealed() then p.hash else GENESIS }

  ghost predicate At(t: Table, o: Row, node: string, seqNo: int)
  {
    o in t.Values && o.node == node && o.seqNo == seqNo
  }

  /** A row that is stored differently, or does not fit where it would go. */
  ghost predicate Clashes(t: Table, r: Row)
  {
    if r.id in t then t[r.id].hash != r.hash
    else
      || (exists o :: At(t, o, r.node, r.seqNo))
      || (exists p :: At(t, p, r.node, r.seqNo - 1) && r.prevHash != LinkTarget(p))
      || (exists n :: At(t, n, r.node, r.seqNo + 1) && n.prevHash != r.hash)
  }

  ghost function ConflictSeqs(t: Table, prefix: set<Row>, skipped: set<Row>): set<int>
  {
    (set r | r in prefix && (IdTaken(prefix, r) || Clashes(t, r)) :: r.seqNo) +
    (set u | u in skipped && StoredBelow(t, u) :: u.seqNo)
  }

  ghost function Disputed(check: Row -> bool, t: Table, rows: seq<Row>): set<int>
  {
    ConflictSeqs(t, Prefix(check, rows), Skipped(check, rows))
  }

  /** The lowest conflict is at seq 0, which reads as none. */
  ghost predicate Overlooked(check: Row -> bool, t: Table, rows: seq<Row>)
  {
    Least(Disputed(check, t, rows)) == Some(0)
  }

  function Heeded(c: Option<int>): Option<int> { if c == Some(0) then None else c }

  /** The conflict that the batch is cut at. */
  ghost function Conflict(check: Row -> bool, t: Table, rows: seq<Row>): Option<int>
  {
    Heeded(Least(Disputed(check, t, rows)))
  }

  ghost function Accepted(check: Row -> bool, t: Table, rows: seq<Row>): set<Row>
  {
    set r | r in Prefix(check, rows) && Below(r, Conflict(check, t, rows))
  }

  ghost function Reported(check: Row -> bool, t: Table, rows: seq<Row>): int
  {
    var c := Conflict(check, t, rows);
    if c.Some? then c.value else CutSeq(BatchCut(check, rows))
  }

  ghost predicate StoredFrom(accepted: set<Row>, row: Row) { exists r :: r in accepted && row == AsStored(r) }

  /** `u` is `t` and new rows of `accepted`, and holds each of those, or a row
      with its id and hash. */
  ghost predicate Holds(t: Table, u: Table, accepted: set<Row>)
  {
    && (forall id | id in t :: id in u && u[id] == t[id])
    && (forall r | r in accepted :: r.id in u && u[r.id].hash == r.hash)
    && (forall id | id in u && id !in t :: StoredFrom(accepted, u[id]))
  }

  /** One ingest of any batch. */
  ghost predicate Ingests(check: Row -> bool, t: Table, rows: seq<Row>, u: Table, res: IngestResult)
  {
    && Keyed(u) && Holds(t, u, Accepted(check, t, rows))
    && res == IngestResult(|Accepted(check, t, rows)|, Reported(check, t, rows))
  }

  /******* Assumptions *******/

  /** Storing a row fills in defaults, which the check does not mind. */
  ghost predicate StoreStable(check: Row -> bool)
  {
    forall r :: check(AsStored(r)) == check(r)
  }

  lemma GoCheckStoreStable(sha: string -> string)
    ensures StoreStable(GoCheck(sha))
  {
    hide RowOk, AsStored;
    forall r ensures GoCheck(sha)(AsStored(r)) == GoCheck(sha)(r) { StoredRowChecks(sha, r); }
  }

  /** One hash is one row, at one place. */
  ghost predicate HashFixesPlace(check: Row -> bool)
  {
    forall a, b | check(a) && check(b) && a.Sealed() && a.hash == b.hash :: SameChain(a, b)
  }

  lemma GoCheckFixesPlace(sha: string -> string)
    requires Collisionless(sha)
    ensures HashFixesPlace(GoCheck(sha))
  {
    hide RowOk;
    forall a, b | GoCheck(sha)(a) && GoCheck(sha)(b) && a.Sealed() && a.hash == b.hash ensures SameChain(a, b) {
      HashPinsRow(sha, a, b);
    }
  }

  lemma FixedPlace(check: Row -> bool, a: Row, b: Row)
    requires HashFixesPlace(check) && check(a) && check(b) && a.Sealed() && a.hash == b.hash
    ensures SameChain(a, b)
  {
  }

  lemma StoredPlace(r: Row)
    ensures SameChain(AsStored(r), r)
  {
  }

  lemma StoredHash(r: Row)
    ensures AsStored(r).hash == r.hash && AsStored(r).id == r.id
  {
  }

  /******* What a verified prefix is *******/

  ghost function VerifiedRows(rows: seq<Row>): set<Row> { RowSet(KeptBy(JoinedKey, Sequenced(rows))) }

  lemma BreaksAtOrAfter(check: Row -> bool, rows: seq<Row>)
    ensures forall x | x in CopyBreaksBy(JoinedKey, check, Sequenced(rows)) ::
      BatchCut(check, rows).Some? && BatchCut(check, rows).value <= x
    ensures forall r | r in VerifiedRows(rows) && Broken(check, VerifiedRows(rows), r) :: !Below(r, BatchCut(check, rows))
  {
    hide Least, CopyBreaksBy, Broken, KeptBy, Sort, JoinedKey;
    var kept := VerifiedRows(rows);
    assert forall r | r in kept && Broken(check, kept, r) :: r.seqNo in ChainBreaks(check, kept);
  }

  lemma SortedBatch(rows: seq<Row>)
    ensures InSeqOrder(Sequenced(rows)) && forall r :: r in Sequenced(rows) <==> r in rows
  {
    BySeqOrders();
    SortSorts(BySeq, rows);
    SameElements(Sequenced(rows), rows);
  }

  ghost predicate InPrefix(check: Row -> bool, rows: seq<Row>, r: Row) { r in Prefix(check, rows) }

  lemma PrefixGiven(check: Row -> bool, rows: seq<Row>, r: Row)
    requires InPrefix(check, rows, r)
    ensures r in rows && r.Sealed() && Below(r, BatchCut(check, rows))
  {
    hide BatchCut, Sequenced, KeyOf;
    SortedBatch(rows);
  }

  lemma PrefixAt(check: Row -> bool, rows: seq<Row>, r: Row) returns (n: nat)
    requires InPrefix(check, rows, r)
    ensures n < |Sequenced(rows)| && Sequenced(rows)[n] == r && r.Sealed()
    ensures forall j | 0 <= j < n :: !(Sequenced(rows)[j].Sealed() && KeyOf(Sequenced(rows)[j]) == KeyOf(r))
  {
    hide BatchCut, Sequenced;
    var sorted := Sequenced(rows);
    assert IsFirst(sorted, |sorted|, r);
    n :| n < |sorted| && FirstWithKey(sorted, n, r);
  }

  /** One row per key. */
  lemma PrefixOnce(check: Row -> bool, rows: seq<Row>, a: Row, b: Row)
    requires InPrefix(check, rows, a) && InPrefix(check, rows, b) && KeyOf(a) == KeyOf(b)
    ensures a == b
  {
    hide InPrefix, Sequenced, KeyOf;
    var i := PrefixAt(check, rows, a);
    var j := PrefixAt(check, rows, b);
    assert i == j;
  }

  /** The copy that the verify looked at: below the break it has the same hash. */
  lemma PrefixCopy(check: Row -> bool, rows: seq<Row>, r: Row) returns (k: Row)
    requires InPrefix(check, rows, r)
    ensures k in VerifiedRows(rows) && k in rows && k.Sealed() && JoinedKey(k) == JoinedKey(r)
    ensures k.hash == r.hash && k.seqNo <= r.seqNo && (k == r || check(r)) && check(k)
    ensures KeyOf(k) == KeyOf(r) ==> k == r
    ensures !BadLink(VerifiedRows(rows), k) && !SeqTaken(VerifiedRows(rows), k)
  {
    hide BatchCut, Sequenced, CopyBreaksBy, InSeqOrder, KeptBy, JoinedKey, KeyOf, BadLink, SeqTaken, InPrefix;
    var sorted := Sequenced(rows);
    SortedBatch(rows);
    PrefixGiven(check, rows, r);
    var n := PrefixAt(check, rows, r);
    var f: nat;
    k, f := SealedCopyBy(JoinedKey, check, sorted, n);
    InOrder(sorted, f, n);
    BreaksAtOrAfter(check, rows);
    assert !Broken(check, VerifiedRows(rows), k);
  }

  /** Two sealed copies of a row below the break have one hash. */
  lemma PrefixApart(check: Row -> bool, rows: seq<Row>, a: Row, b: Row)
    requires InPrefix(check, rows, a) && InPrefix(check, rows, b) && SameRow(a, b)
    ensures a == b
  {
    hide InPrefix, KeptBy, Sequenced, BadLink, SeqTaken;
    var k := PrefixCopy(check, rows, a);
    var l := PrefixCopy(check, rows, b);
    KeptOnceBy(JoinedKey, Sequenced(rows), k, l);
    PrefixOnce(check, rows, a, b);
  }

  /** With hashes that fix places, the prefix is what the verify looked at. */
  lemma PrefixRow(check: Row -> bool, rows: seq<Row>, r: Row)
    requires HashFixesPlace(check) && InPrefix(check, rows, r)
    ensures r in rows && r.Sealed() && check(r) && Below(r, BatchCut(check, rows)) && r in VerifiedRows(rows)
    ensures !BadLink(VerifiedRows(rows), r) && !SeqTaken(VerifiedRows(rows), r)
  {
    hide InPrefix, KeptBy, Sequenced, BadLink, SeqTaken, BatchCut, HashFixesPlace;
    PrefixGiven(check, rows, r);
    var k := PrefixCopy(check, rows, r);
    if k != r { FixedPlace(check, k, r); }
  }

  /** One row per id and per seq of a node. */
  lemma PrefixDistinct(check: Row -> bool, rows: seq<Row>, a: Row, b: Row)
    requires HashFixesPlace(check) && InPrefix(check, rows, a) && InPrefix(check, rows, b)
    requires a.node == b.node && (a.id == b.id || a.seqNo == b.seqNo)
    ensures a == b
  {
    hide BatchCut, KeptBy, Sequenced, BadLink, HashFixesPlace, InPrefix;
    PrefixRow(check, rows, a);
    PrefixRow(check, rows, b);
    assert a.id == b.id;
    PrefixApart(check, rows, a, b);
  }

  lemma PrefixLinks(check: Row -> bool, rows: seq<Row>, p: Row, r: Row)
    requires HashFixesPlace(check) && InPrefix(check, rows, p) && InPrefix(check, rows, r)
    requires p.node == r.node && p.seqNo == r.seqNo - 1
    ensures r.prevHash == p.hash
  {
    hide BatchCut, KeptBy, Sequenced, SeqTaken, HashFixesPlace, InPrefix;
    PrefixRow(check, rows, p);
    PrefixRow(check, rows, r);
    assert Precedes(VerifiedRows(rows), p, r);
  }

  /** Every sealed row before the break has its copy in the prefix. */
  lemma PrefixCovers(check: Row -> bool, rows: seq<Row>, b: Row) returns (k: Row)
    requires b in rows && b.Sealed() && Below(b, BatchCut(check, rows))
    ensures InPrefix(check, rows, k) && SameRow(k, b) && k.hash == b.hash && k.seqNo <= b.seqNo
  {
    hide BatchCut, Sequenced, InSeqOrder;
    SortedBatch(rows);
    var sorted := Sequenced(rows);
    var n :| 0 <= n < |sorted| && sorted[n] == b;
    var f := FirstCopy(sorted, n);
    k := sorted[f];
    InOrder(sorted, f, n);
    assert FirstWithKey(sorted, f, k);
  }

  lemma {:induction false} FirstCopy(sorted: seq<Row>, n: nat) returns (f: nat)
    requires n < |sorted| && sorted[n].Sealed()
    ensures f <= n && KeyOf(sorted[f]) == KeyOf(sorted[n]) && FirstWithKey(sorted, f, sorted[f])
  {
    if j: nat :| j < n && sorted[j].Sealed() && KeyOf(sorted[j]) == KeyOf(sorted[n]) {
      f := FirstCopy(sorted, j);
    } else {
      f := n;
    }
  }

  /******* What is accepted *******/

  lemma AcceptedIn(check: Row -> bool, t: Table, rows: seq<Row>, r: Row)
    requires r in Accepted(check, t, rows)
    ensures InPrefix(check, rows, r) && r in rows && r.Sealed() && Below(r, Conflict(check, t, rows))
    ensures Before(r, Reported(check, t, rows))
  {
    hide Prefix, Conflict, BatchCut;
    PrefixGiven(check, rows, r);
  }

  /** Unless a conflict is overlooked, an accepted row fits among what is stored. */
  lemma AcceptedFits(check: Row -> bool, t: Table, rows: seq<Row>, r: Row)
    requires !Overlooked(check, t, rows) && r in Accepted(check, t, rows)
    ensures !Clashes(t, r) && !IdTaken(Prefix(check, rows), r)
  {
    hide Prefix, Skipped, Clashes, Least, IdTaken;
    var prefix := Prefix(check, rows);
    assert IdTaken(prefix, r) || Clashes(t, r) ==> r.seqNo in Disputed(check, t, rows);
  }

  lemma OrderedSomehow(a: Row, b: Row)
    ensures BySeqThenNode(a, b) || BySeqThenNode(b, a)
  {
    BySeqThenNodeOrders();
  }

  lemma AcceptedIds(check: Row -> bool, t: Table, rows: seq<Row>, a: Row, b: Row)
    requires !Overlooked(check, t, rows) && a in Accepted(check, t, rows) && b in Accepted(check, t, rows) && a.id == b.id
    ensures a == b
  {
    hide Prefix, Overlooked, Conflict;
    AcceptedFits(check, t, rows, a);
    AcceptedFits(check, t, rows, b);
    OrderedSomehow(a, b);
  }

  /** `u` is `t` with the accepted rows whose id it lacked. */
  ghost predicate Extends(t: Table, u: Table, accepted: set<Row>)
  {
    && (forall id | id in t :: id in u && u[id] == t[id])
    && (forall r | r in accepted :: r.id in u && (r.id !in t ==> u[r.id] == AsStored(r)))
    && (forall id | id in u && id !in t :: exists r | r in accepted :: r.id == id)
  }

  lemma NewSource(t: Table, u: Table, accepted: set<Row>, id: string) returns (s: Row)
    requires Keyed(u) && Holds(t, u, accepted) && id in u && id !in t
    ensures s in accepted && s.id == id && u[id] == AsStored(s)
  {
    hide AsStored;
    s :| s in accepted && u[id] == AsStored(s);
    StoredHash(s);
  }

  lemma HoldsExtends(t: Table, u: Table, accepted: set<Row>)
    requires Keyed(u) && Holds(t, u, accepted)
    requires forall a, b | a in accepted && b in accepted && a.id == b.id && a.hash == b.hash :: a == b
    ensures Extends(t, u, accepted)
  {
    hide AsStored, Keyed, StoredFrom;
    forall r | r in accepted && r.id !in t ensures u[r.id] == AsStored(r) {
      var s := NewSource(t, u, accepted, r.id);
      StoredHash(s);
    }
    forall id | id in u && id !in t ensures exists r | r in accepted :: r.id == id {
      var s := NewSource(t, u, accepted, id);
    }
  }

  lemma SameHashSame(check: Row -> bool, rows: seq<Row>, a: Row, b: Row)
    requires HashFixesPlace(check) && InPrefix(check, rows, a) && InPrefix(check, rows, b) && a.hash == b.hash
    ensures a == b
  {
    hide InPrefix, HashFixesPlace, VerifiedRows, BatchCut;
    PrefixRow(check, rows, a);
    PrefixRow(check, rows, b);
    FixedPlace(check, a, b);
    PrefixDistinct(check, rows, a, b);
  }

  lemma IngestExtends(check: Row -> bool, t: Table, rows: seq<Row>, u: Table, res: IngestResult)
    requires Ingests(check, t, rows, u, res) && (HashFixesPlace(check) || !Overlooked(check, t, rows))
    ensures Extends(t, u, Accepted(check, t, rows))
  {
    hide Accepted, HashFixesPlace, Overlooked, Keyed, Holds, Reported, InPrefix;
    var accepted := Accepted(check, t, rows);
    forall a, b | a in accepted && b in accepted && a.id == b.id && a.hash == b.hash ensures a == b {
      if HashFixesPlace(check) {
        AcceptedIn(check, t, rows, a);
        AcceptedIn(check, t, rows, b);
        SameHashSame(check, rows, a, b);
      } else {
        AcceptedIds(check, t, rows, a, b);
      }
    }
    HoldsExtends(t, u, accepted);
  }

  /******* Linked stores *******/

  /** Ids and seqs are unique, sealed rows check out, and a sealed row links to
      the row stored right below it. */
  ghost predicate LinkedStore(check: Row -> bool, t: Table)
  {
    && Keyed(t)
    && (forall r | r in t.Values && r.Sealed() :: check(r))
    && (forall p, r | p in t.Values && r in t.Values && r.Sealed() && p.node == r.node && p.seqNo == r.seqNo - 1 ::
          r.prevHash == LinkTarget(p))
  }

  /** A row that is not stored and does not link to, or is not linked from, what
      is stored next to its place. */
  ghost predicate LinkClash(t: Table, r: Row)
  {
    && r.id !in t
    && (|| (exists p :: At(t, p, r.node, r.seqNo - 1) && r.prevHash != LinkTarget(p))
        || (exists n :: At(t, n, r.node, r.seqNo + 1) && n.Sealed() && n.prevHash != r.hash))
  }

  /** A row of the extended store was there, or is an accepted one. */
  lemma RowSource(t: Table, u: Table, accepted: set<Row>, r: Row) returns (added: bool, source: Row)
    requires Extends(t, u, accepted) && r in u.Values
    ensures added ==> source in accepted && source.id !in t && r == AsStored(source)
    ensures !added ==> r in t.Values
  {
    hide AsStored;
    var id :| id in u && u[id] == r;
    added := id !in t;
    source := r;
    if added {
      source :| source in accepted && source.id == id;
    }
  }

  lemma Stays(t: Table, u: Table, r: Row)
    requires (forall id | id in t :: id in u && u[id] == t[id]) && r in t.Values
    ensures r in u.Values
  {
    var id :| id in t && t[id] == r;
    assert u[id] == r;
  }

  lemma ExtendsKeeps(t: Table, u: Table, accepted: set<Row>, r: Row)
    requires Extends(t, u, accepted) && r in t.Values
    ensures r in u.Values
  {
    Stays(t, u, r);
  }

  lemma AddedIn(t: Table, u: Table, accepted: set<Row>, r: Row) returns (s: Row)
    requires Extends(t, u, accepted) && r in accepted && r.id !in t
    ensures s == AsStored(r) && s in u.Values
  {
    hide AsStored;
    s := u[r.id];
  }

  lemma NoClashLinks(t: Table, r: Row, o: Row)
    requires !LinkClash(t, r) && r.id !in t && o in t.Values && o.node == r.node
    ensures o.seqNo == r.seqNo - 1 ==> r.prevHash == LinkTarget(o)
    ensures o.seqNo == r.seqNo + 1 && o.Sealed() ==> o.prevHash == r.hash
  {
    assert o.seqNo == r.seqNo - 1 ==> At(t, o, r.node, r.seqNo - 1);
    assert o.seqNo == r.seqNo + 1 ==> At(t, o, r.node, r.seqNo + 1);
  }

  lemma LinkedAfter(check: Row -> bool, t: Table, rows: seq<Row>, u: Table, p: Row, r: Row)
    requires HashFixesPlace(check) && LinkedStore(check, t) && Extends(t, u, Accepted(check, t, rows))
    requires forall o | o in Accepted(check, t, rows) :: !LinkClash(t, o)
    requires p in u.Values && r in u.Values && r.Sealed() && p.node == r.node && p.seqNo == r.seqNo - 1
    ensures r.prevHash == LinkTarget(p)
  {
    hide Accepted, Extends, Keyed, InPrefix, LinkClash, HashFixesPlace;
    var accepted := Accepted(check, t, rows);
    var newP, p' := RowSource(t, u, accepted, p);
    var newR, r' := RowSource(t, u, accepted, r);
    if newR {
      AcceptedIn(check, t, rows, r');
      if newP {
        AcceptedIn(check, t, rows, p');
        PrefixLinks(check, rows, p', r');
      } else {
        NoClashLinks(t, r', p);
      }
    } else if newP {
      AcceptedIn(check, t, rows, p');
      NoClashLinks(t, p', r);
    }
  }

  lemma LinkClashClashes(t: Table, r: Row)
    requires LinkClash(t, r)
    ensures Clashes(t, r)
  {
  }

  lemma NoneClash(check: Row -> bool, t: Table, rows: seq<Row>)
    requires Overlooked(check, t, rows) ==> forall r | r in Prefix(check, rows) :: !LinkClash(t, r)
    ensures forall r | r in Accepted(check, t, rows) :: !LinkClash(t, r)
  {
    hide Overlooked, LinkClash, Conflict, Prefix;
    forall r | r in Accepted(check, t, rows) ensures !LinkClash(t, r) {
      if LinkClash(t, r) && !Overlooked(check, t, rows) {
        AcceptedFits(check, t, rows, r);
        LinkClashClashes(t, r);
      }
    }
  }

  /** A clash in the prefix that is overlooked unlinks the store. */
  lemma ClashUnlinks(check: Row -> bool, t: Table, u: Table, accepted: set<Row>, r: Row)
    requires Extends(t, u, accepted) && r in accepted && r.Sealed() && LinkClash(t, r)
    ensures !LinkedStore(check, u)
  {
    hide AsStored, LinkedStore, LinkTarget, Extends;
    StoredPlace(r);
    var s := AddedIn(t, u, accepted, r);
    if p :| At(t, p, r.node, r.seqNo - 1) && r.prevHash != LinkTarget(p) {
      ExtendsKeeps(t, u, accepted, p);
      if LinkedStore(check, u) { LinkedPair(check, u, p, s); }
    } else {
      var n :| At(t, n, r.node, r.seqNo + 1) && n.Sealed() && n.prevHash != r.hash;
      ExtendsKeeps(t, u, accepted, n);
      if LinkedStore(check, u) { LinkedPair(check, u, s, n); }
      SealedTarget(s);
    }
  }

  lemma SealedTarget(r: Row)
    ensures r.Sealed() ==> LinkTarget(r) == r.hash
  {
  }

  lemma LinkedPair(check: Row -> bool, u: Table, p: Row, r: Row)
    requires LinkedStore(check, u) && p in u.Values && r in u.Values && r.Sealed() && p.node == r.node && p.seqNo == r.seqNo - 1
    ensures r.prevHash == LinkTarget(p)
  {
    hide LinkTarget, Keyed;
  }

  /** Ingesting a batch keeps the store linked, exactly unless a conflict at seq
      0 is overlooked and some row that is taken then does not link. */
  lemma IngestKeepsLinked(check: Row -> bool, t: Table, rows: seq<Row>, u: Table, res: IngestResult)
    requires StoreStable(check) && HashFixesPlace(check) && LinkedStore(check, t) && Ingests(check, t, rows, u, res)
    ensures LinkedStore(check, u) <==>
      (Overlooked(check, t, rows) ==> forall r | r in Prefix(check, rows) :: !LinkClash(t, r))
  {
    hide Accepted, LinkTarget, InPrefix, HashFixesPlace, Overlooked, LinkClash, Holds, Prefix;
    var accepted := Accepted(check, t, rows);
    IngestExtends(check, t, rows, u, res);
    if Overlooked(check, t, rows) ==> forall r | r in Prefix(check, rows) :: !LinkClash(t, r) {
      NoneClash(check, t, rows);
      forall r | r in u.Values && r.Sealed() ensures check(r) { ChecksAfter(check, t, rows, u, r); }
      forall p, r | p in u.Values && r in u.Values && r.Sealed() && p.node == r.node && p.seqNo == r.seqNo - 1
        ensures r.prevHash == LinkTarget(p)
      {
        LinkedAfter(check, t, rows, u, p, r);
      }
    } else {
      var r :| r in Prefix(check, rows) && LinkClash(t, r);
      OverlookedTakesAll(check, t, rows);
      AcceptedIn(check, t, rows, r);
      ClashUnlinks(check, t, u, accepted, r);
    }
  }

  lemma OverlookedTakesAll(check: Row -> bool, t: Table, rows: seq<Row>)
    requires Overlooked(check, t, rows)
    ensures Conflict(check, t, rows) == None && Accepted(check, t, rows) == Prefix(check, rows)
  {
    hide Prefix, Disputed, Least;
  }

  lemma ChecksAfter(check: Row -> bool, t: Table, rows: seq<Row>, u: Table, r: Row)
    requires StoreStable(check) && HashFixesPlace(check) && LinkedStore(check, t) && Extends(t, u, Accepted(check, t, rows))
    requires r in u.Values && r.Sealed()
    ensures check(r)
  {
    hide Accepted, Extends, InPrefix, HashFixesPlace, Keyed, VerifiedRows, BatchCut;
    var added, source := RowSource(t, u, Accepted(check, t, rows), r);
    if added {
      AcceptedIn(check, t, rows, source);
      PrefixRow(check, rows, source);
    }
  }
}
