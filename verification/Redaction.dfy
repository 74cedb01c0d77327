/** PII retention: a record is stored for each row before its detail is
    destroyed, whatever store call fails, and whether or not a failed call took
    effect. */
module Redaction {
  import opened Text
  import opened Timestamps
  import opened Rows
  import opened Sealing
  import opened RowLaws
  import opened Sorting
  import opened Verify
  import opened VerifyLaws
  import opened Store
  import opened SqlStore

  const REDACTED: string := "AUDIT_ROW_REDACTED"

  /** What a pass looks for: PII rows past the horizon that still have their
      detail, except those whose hash covers it. */
  predicate IsCandidate(r: Row, before: Time, codes: seq<string>)
  {
    r.timestamp < before && r.code in codes && Clears(r) && r.detail.Some?
  }

  /******* One pass *******/

  predicate IsRecord(r: Row, target: string) { r.code == REDACTED && r.target == target }

  /** The record of `x` is stored, under a new id. */
  ghost predicate Recorded(sha: string -> string, t: Table, x: string, u: Table)
  {
    exists row, salt, sealed ::
      && IsRecord(row, x) && row.id !in t && row.originId == row.id && salt != ""
      && Allocated(sha, t, row, salt, sealed) && u == InsertRow(t, sealed)
  }

  /** A pass over the candidates from `t` to `u`, which stops at the first store
      call that fails. A failed call may have taken effect all the same. */
  ghost predicate Pass(sha: string -> string, t: Table, candidates: seq<string>, u: Table, failedOn: Option<string>)
    decreases |candidates|
  {
    if candidates == [] then u == t && failedOn == None
    else
      var x, rest := candidates[0], candidates[1..];
      || (failedOn == Some(x) && (u == t || Recorded(sha, t, x, u)))
      || (exists m ::
            && Recorded(sha, t, x, m)
            && (|| (failedOn == Some(x) && (u == m || u == RedactRows(m, [x])))
                || Pass(sha, RedactRows(m, [x]), rest, u, failedOn)))
  }

  /** Distinct rows that may be redacted and have their detail. */
  ghost predicate Redactable(t: Table, candidates: seq<string>)
  {
    && (forall i, j | 0 <= i < j < |candidates| :: candidates[i] != candidates[j])
    && (forall x | x in candidates :: x in t && t[x].detail.Some? && Clears(t[x]))
  }

  /******* What a pass keeps *******/

  ghost function RecordIds(t: Table, x: string): set<string> { set id | id in t && IsRecord(t[id], x) }

  ghost function Records(t: Table, x: string): nat { |RecordIds(t, x)| }

  /** 1 while there is, or may yet be, a detail to destroy. */
  ghost function Pending(t: Table, x: string): nat { if x in t && t[x].detail.None? then 0 else 1 }

  function Failures(failedOn: Option<string>, x: string): nat { if failedOn == Some(x) then 1 else 0 }

  /** Rows stay, with their code and target; a detail never comes back, and one
      that goes leaves a record. */
  ghost predicate RecordsKept(t: Table, u: Table)
  {
    && (forall id | id in t :: id in u && u[id].code == t[id].code && u[id].target == t[id].target)
    && (forall id | id in t && t[id].detail.None? :: u[id].detail.None?)
    && (forall id | id in t && t[id].detail.Some? && u[id].detail.None? :: RecordIds(u, id) != {})
  }

  lemma RecordsKeptTwice(t: Table, m: Table, u: Table)
    requires RecordsKept(t, m) && RecordsKept(m, u)
    ensures RecordsKept(t, u)
  {
    forall id | id in t && t[id].detail.Some? && u[id].detail.None? ensures RecordIds(u, id) != {} {
      if m[id].detail.None? {
        RecordsGrow(m, u, id);
      }
    }
  }

  lemma RecordsGrow(t: Table, u: Table, x: string)
    requires forall id | id in t :: id in u && u[id].code == t[id].code && u[id].target == t[id].target
    ensures RecordIds(t, x) <= RecordIds(u, x)
  {
  }

  lemma RecordRow(sha: string -> string, t: Table, x: string, u: Table) returns (r: Row)
    requires Recorded(sha, t, x, u)
    ensures r.id !in t && IsRecord(r, x) && u == t[r.id := r]
  {
    hide TipHash, HighestSeq;
    var row, salt, sealed :| IsRecord(row, x) && row.id !in t && row.originId == row.id && salt != ""
                             && Allocated(sha, t, row, salt, sealed) && u == InsertRow(t, sealed);
    r := AsStored(sealed);
    AllocatedPlace(sha, t, row, salt, sealed);
  }

  lemma AllocatedPlace(sha: string -> string, t: Table, row: Row, salt: string, sealed: Row)
    requires Allocated(sha, t, row, salt, sealed)
    ensures sealed.id == row.id && sealed.code == row.code && sealed.target == row.target
    ensures Conflicts(t, sealed) ==> row.id in t
  {
    hide TipHash, HighestSeq, Commit, Digest;
    forall o | o in t.Values && o.node == row.node ensures o.seqNo < sealed.seqNo { HighestBounds(t, o); }
  }

  lemma WithRow(t: Table, r: Row, y: string)
    requires r.id !in t
    ensures var u := t[r.id := r];
      && RecordIds(u, y) == RecordIds(t, y) + (if IsRecord(r, y) then {r.id} else {})
      && Records(u, y) == Records(t, y) + (if IsRecord(r, y) then 1 else 0)
      && RecordsKept(t, u)
  {
    hide RecordIds, IsRecord;
    WithRowIds(t, r, y);
  }

  lemma WithRowIds(t: Table, r: Row, y: string)
    requires r.id !in t
    ensures RecordIds(t[r.id := r], y) == RecordIds(t, y) + (if IsRecord(r, y) then {r.id} else {})
    ensures r.id !in RecordIds(t, y)
  {
  }

  lemma SameRecords(t: Table, u: Table, y: string)
    requires u.Keys == t.Keys && forall id | id in t :: u[id].code == t[id].code && u[id].target == t[id].target
    ensures RecordIds(u, y) == RecordIds(t, y)
  {
  }

  /** A record adds one, for its target. */
  lemma RecordCounts(sha: string -> string, t: Table, x: string, u: Table, y: string)
    requires Recorded(sha, t, x, u)
    ensures RecordsKept(t, u)
    ensures Records(u, y) == Records(t, y) + if y == x then 1 else 0
    ensures Pending(u, y) <= Pending(t, y)
    ensures RecordIds(u, x) != {}
    ensures y in t ==> y in u && u[y] == t[y]
  {
    hide Recorded, RecordIds, RecordsKept;
    var r := RecordRow(sha, t, x, u);
    WithRow(t, r, x);
    WithRow(t, r, y);
  }

  lemma RedactedOne(m: Table, x: string)
    requires x in m && Clears(m[x])
    ensures var u := RedactRows(m, [x]);
      && u.Keys == m.Keys && u[x] == Redacted(m[x]) && forall id | id in m && id != x :: u[id] == m[id]
  {
  }

  /** Destroying a detail that has its record. */
  lemma DestroyCounts(m: Table, x: string, y: string)
    requires x in m && m[x].detail.Some? && Clears(m[x]) && RecordIds(m, x) != {}
    ensures var u := RedactRows(m, [x]);
      && RecordsKept(m, u) && Records(u, y) == Records(m, y)
      && Pending(u, y) == (if y == x then 0 else Pending(m, y))
      && (y in m && y != x ==> y in u && u[y] == m[y])
  {
    hide RecordIds;
    var u := RedactRows(m, [x]);
    RedactedOne(m, x);
    hide RedactRows;
    SameRecords(m, u, x);
    SameRecords(m, u, y);
  }

  /** A pass may add records to a row only against its detail, or a failure. */
  lemma {:induction false} PassCounts(sha: string -> string, t: Table, candidates: seq<string>, u: Table, failedOn: Option<string>, y: string)
    requires Redactable(t, candidates) && Pass(sha, t, candidates, u, failedOn)
    ensures RecordsKept(t, u)
    ensures Records(u, y) + Pending(u, y) <= Records(t, y) + Pending(t, y) + Failures(failedOn, y)
    decreases |candidates|
  {
    hide RecordsKept, Records, Recorded, Pending, RecordIds;
    if candidates == [] {
      KeptAsIs(t);
      return;
    }
    var x, rest := candidates[0], candidates[1..];
    if failedOn == Some(x) && u == t {
      KeptAsIs(t);
    } else if failedOn == Some(x) && Recorded(sha, t, x, u) {
      RecordCounts(sha, t, x, u, y);
    } else {
      var m :| Recorded(sha, t, x, m)
               && ((failedOn == Some(x) && (u == m || u == RedactRows(m, [x]))) || Pass(sha, RedactRows(m, [x]), rest, u, failedOn));
      StepCounts(sha, t, candidates, m, y);
      if failedOn == Some(x) && u == m {
        RecordCounts(sha, t, x, m, y);
      } else if !(failedOn == Some(x) && u == RedactRows(m, [x])) {
        PassCounts(sha, RedactRows(m, [x]), rest, u, failedOn, y);
        RecordsKeptTwice(t, RedactRows(m, [x]), u);
      }
    }
  }

  lemma KeptAsIs(t: Table)
    ensures RecordsKept(t, t)
  {
  }

  /** Recording a row and then destroying its detail. */
  lemma StepCounts(sha: string -> string, t: Table, candidates: seq<string>, m: Table, y: string)
    requires Redactable(t, candidates) && candidates != [] && Recorded(sha, t, candidates[0], m)
    ensures var w := RedactRows(m, [candidates[0]]);
      && RecordsKept(t, w) && Records(w, y) + Pending(w, y) <= Records(t, y) + Pending(t, y)
      && Redactable(w, candidates[1..])
  {
    hide RecordsKept, Records, Recorded, RecordIds;
    var x, rest := candidates[0], candidates[1..];
    var w := RedactRows(m, [x]);
    assert x in candidates;
    RecordCounts(sha, t, x, m, x);
    RecordCounts(sha, t, x, m, y);
    DestroyCounts(m, x, y);
    RecordsKeptTwice(t, m, w);
    forall z | z in rest ensures z in w && w[z] == t[z] && z in candidates && z != x {
      var i :| 0 <= i < |rest| && rest[i] == z;
      assert candidates[i + 1] == z && candidates[0] != candidates[i + 1];
      RecordCounts(sha, t, x, m, z);
      DestroyCounts(m, x, z);
    }
  }

  lemma {:induction false} PassKeepsChained(sha: string -> string, t: Table, candidates: seq<string>, u: Table, failedOn: Option<string>)
    requires DigestLike(sha) && Chained(sha, t) && Pass(sha, t, candidates, u, failedOn)
    ensures Chained(sha, u)
    decreases |candidates|
  {
    hide Chained, Recorded, DigestLike;
    if candidates != [] {
      var x, rest := candidates[0], candidates[1..];
      if failedOn == Some(x) && u == t {
      } else if failedOn == Some(x) && Recorded(sha, t, x, u) {
        RecordKeepsChained(sha, t, x, u);
      } else {
        var m :| Recorded(sha, t, x, m)
                 && ((failedOn == Some(x) && (u == m || u == RedactRows(m, [x]))) || Pass(sha, RedactRows(m, [x]), rest, u, failedOn));
        RecordKeepsChained(sha, t, x, m);
        RedactingKeepsChained(sha, m, [x]);
        if !(failedOn == Some(x) && (u == m || u == RedactRows(m, [x]))) {
          PassKeepsChained(sha, RedactRows(m, [x]), rest, u, failedOn);
        }
      }
    }
  }

  lemma RecordKeepsChained(sha: string -> string, t: Table, x: string, u: Table)
    requires DigestLike(sha) && Chained(sha, t) && Recorded(sha, t, x, u)
    ensures Chained(sha, u)
  {
    hide Chained, Allocated, InsertRow, DigestLike;
    var row, salt, sealed :| IsRecord(row, x) && row.id !in t && row.originId == row.id && salt != ""
                             && Allocated(sha, t, row, salt, sealed) && u == InsertRow(t, sealed);
    AllocatingKeepsChained(sha, t, row, salt, sealed);
  }

  /******* Any number of passes *******/

  /** Between passes there is any step of the store, by whomever. */
  datatype Event =
    | Passing(candidates: seq<string>, failedOn: Option<string>)
    | Storing(step: Step)

  ghost predicate Happens(sha: string -> string, t: Table, e: Event, u: Table)
  {
    match e
    case Passing(candidates, failedOn) => Redactable(t, candidates) && Pass(sha, t, candidates, u, failedOn)
    case Storing(step) => Next(sha, t, step, u)
  }

  ghost predicate History(sha: string -> string, tables: seq<Table>, events: seq<Event>)
  {
    |tables| == |events| + 1 && forall i | 0 <= i < |events| :: Happens(sha, tables[i], events[i], tables[i + 1])
  }

  /** How many of the first `k` events are passes that failed on `x`. */
  function FailedPasses(events: seq<Event>, k: nat, x: string): nat
    requires k <= |events|
  {
    if k == 0 then 0
    else FailedPasses(events, k - 1, x) + if events[k - 1].Passing? then Failures(events[k - 1].failedOn, x) else 0
  }

  /** What others add to the count: a record they stored, or a purge after which
      the id may be used again. */
  ghost function ByOthers(t: Table, e: Event, u: Table, x: string): nat
  {
    if e.Passing? then 0
    else if e.step.Allocating? && IsRecord(e.step.row, x) then 1
    else if e.step.Purging? && x in t && x !in u then 1
    else 0
  }

  ghost function FromOthers(tables: seq<Table>, events: seq<Event>, k: nat, x: string): nat
    requires k <= |events| < |tables|
  {
    if k == 0 then 0 else FromOthers(tables, events, k - 1, x) + ByOthers(tables[k - 1], events[k - 1], tables[k], x)
  }

  lemma UpdatingCounts(t: Table, u: Table, y: string)
    requires u.Keys == t.Keys
    requires forall id | id in t :: u[id].code == t[id].code && u[id].target == t[id].target && (t[id].detail.None? ==> u[id].detail.None?)
    ensures RecordIds(u, y) == RecordIds(t, y) && Records(u, y) == Records(t, y) && Pending(u, y) <= Pending(t, y)
  {
    hide RecordIds;
    SameRecords(t, u, y);
  }

  lemma AllocatingCounts(sha: string -> string, t: Table, row: Row, salt: string, sealed: Row, y: string)
    requires Allocated(sha, t, row, salt, sealed)
    ensures var u := InsertRow(t, sealed);
      && RecordIds(t, y) <= RecordIds(u, y) && Pending(u, y) <= Pending(t, y)
      && Records(u, y) <= Records(t, y) + if IsRecord(row, y) then 1 else 0
  {
    hide Allocated, RecordIds, RecordsKept;
    AllocatedPlace(sha, t, row, salt, sealed);
    if row.id !in t { WithRow(t, AsStored(sealed), y); }
  }

  lemma PurgingCounts(t: Table, u: Table, y: string)
    requires forall id | id in u :: id in t && u[id] == t[id]
    ensures Records(u, y) <= Records(t, y) && Pending(u, y) <= Pending(t, y) + if y in t && y !in u then 1 else 0
  {
    assert RecordIds(u, y) <= RecordIds(t, y);
    Fewer(RecordIds(u, y), RecordIds(t, y));
  }

  lemma {:induction false} Fewer(a: set<string>, b: set<string>)
    requires a <= b
    ensures |a| <= |b|
  {
    assert b == a + (b - a);
  }

  lemma StoringCounts(sha: string -> string, t: Table, step: Step, u: Table, y: string)
    requires Next(sha, t, step, u)
    ensures Records(u, y) + Pending(u, y) <= Records(t, y) + Pending(t, y) + ByOthers(t, Storing(step), u, y)
    ensures !step.Purging? ==> RecordIds(t, y) <= RecordIds(u, y)
  {
    hide Allocated, RecordIds, Records, InsertRow, Pending, Purged;
    match step
    case Shipping(ids, now) => UpdatingCounts(t, u, y);
    case Redacting(ids) => UpdatingCounts(t, u, y);
    case Purging(before, respectUnshipped) => PurgingCounts(t, u, y);
    case Allocating(row, salt) =>
      if row.originId == row.id {
        var sealed :| Allocated(sha, t, row, salt, sealed) && u == InsertRow(t, sealed);
        AllocatingCounts(sha, t, row, salt, sealed, y);
      }
  }

  lemma EventCounts(sha: string -> string, t: Table, e: Event, u: Table, y: string)
    requires Happens(sha, t, e, u)
    ensures Records(u, y) + Pending(u, y) <=
      Records(t, y) + Pending(t, y) + ByOthers(t, e, u, y) + if e.Passing? then Failures(e.failedOn, y) else 0
    ensures !IsPurge(e) ==> RecordIds(t, y) <= RecordIds(u, y)
  {
    hide RecordsKept, Records, RecordIds, Pending, Pass, Redactable, Next;
    match e
    case Passing(candidates, failedOn) =>
      PassCounts(sha, t, candidates, u, failedOn, y);
      KeptRecords(t, u, y);
    case Storing(step) => StoringCounts(sha, t, step, u, y);
  }

  predicate IsPurge(e: Event) { e.Storing? && e.step.Purging? }

  lemma KeptRecords(t: Table, u: Table, x: string)
    requires RecordsKept(t, u)
    ensures RecordIds(t, x) <= RecordIds(u, x)
  {
    RecordsGrow(t, u, x);
  }

  /** At most one record per row, and one more for each pass that failed on it;
      others may add theirs, and a purged id may be used again. */
  lemma {:induction false} RecordsBounded(sha: string -> string, tables: seq<Table>, events: seq<Event>, k: nat, x: string)
    requires History(sha, tables, events) && k < |tables|
    ensures Records(tables[k], x) + Pending(tables[k], x) <=
      Records(tables[0], x) + Pending(tables[0], x) + FailedPasses(events, k, x) + FromOthers(tables, events, k, x)
    ensures Records(tables[k], x) <= Records(tables[0], x) + 1 + FailedPasses(events, k, x) + FromOthers(tables, events, k, x)
  {
    hide Happens, Records, RecordsKept, ByOthers;
    if k > 0 {
      RecordsBounded(sha, tables, events, k - 1, x);
      EventCounts(sha, tables[k - 1], events[k - 1], tables[k], x);
    }
  }

  /** Of the store's steps only redaction takes a detail, of the rows it is given. */
  lemma StepKeepsDetail(sha: string -> string, t: Table, step: Step, u: Table, x: string)
    requires Next(sha, t, step, u) && x in t && x in u && t[x].detail.Some? && u[x].detail.None?
    ensures step.Redacting? && x in step.ids
  {
    hide Allocated, Purged;
  }

  /** The event that took a detail: a pass, and the record is in the table it
      left; or another caller's redaction of the row. */
  ghost predicate Takes(t: Table, e: Event, u: Table, x: string)
  {
    && x in t && t[x].detail.Some? && x in u && u[x].detail.None?
    && if e.Passing? then RecordIds(u, x) != {} else e.step.Redacting? && x in e.step.ids
  }

  lemma TakesDetail(sha: string -> string, t: Table, e: Event, u: Table, x: string)
    requires Happens(sha, t, e, u) && x in t && t[x].detail.Some? && x in u && u[x].detail.None?
    ensures Takes(t, e, u, x)
  {
    hide RecordIds, Pass, Redactable, Next;
    match e
    case Passing(candidates, failedOn) => PassCounts(sha, t, candidates, u, failedOn, x);
    case Storing(step) => StepKeepsDetail(sha, t, step, u, x);
  }

  lemma {:induction false} LostAt(sha: string -> string, tables: seq<Table>, events: seq<Event>, i: nat, k: nat, x: string) returns (j: nat)
    requires History(sha, tables, events) && i <= k < |tables| && forall m | i <= m <= k :: x in tables[m]
    requires tables[i][x].detail.Some? && tables[k][x].detail.None?
    ensures i <= j < k && Takes(tables[j], events[j], tables[j + 1], x)
    decreases k
  {
    hide Happens, Takes;
    if tables[k - 1][x].detail.None? {
      j := LostAt(sha, tables, events, i, k - 1, x);
    } else {
      j := k - 1;
      TakesDetail(sha, tables[j], events[j], tables[k], x);
    }
  }

  /** Records stay until a purge. */
  lemma {:induction false} RecordsStay(sha: string -> string, tables: seq<Table>, events: seq<Event>, j: nat, k: nat, x: string)
    requires History(sha, tables, events) && j <= k < |tables| && forall m | j <= m < k :: !IsPurge(events[m])
    ensures RecordIds(tables[j], x) <= RecordIds(tables[k], x)
    decreases k
  {
    hide Happens, RecordIds, IsPurge;
    if j < k {
      RecordsStay(sha, tables, events, j, k - 1, x);
      EventCounts(sha, tables[k - 1], events[k - 1], tables[k], x);
    }
  }

  ghost predicate HasRecord(t: Table, x: string) { exists id :: id in t && IsRecord(t[id], x) }

  /** Over any run of passes and store steps, a row that had its detail and lost
      it did so at another caller's redaction, or at a pass that left a record
      naming it; and the record is still stored unless a purge came since. */
  lemma RecordBeforeDestroy(sha: string -> string, tables: seq<Table>, events: seq<Event>, i: nat, k: nat, x: string) returns (j: nat)
    requires History(sha, tables, events) && i <= k < |tables| && forall m | i <= m <= k :: x in tables[m]
    requires tables[i][x].detail.Some? && tables[k][x].detail.None?
    ensures i <= j < k && tables[j][x].detail.Some? && tables[j + 1][x].detail.None?
    ensures events[j].Passing? || (events[j].step.Redacting? && x in events[j].step.ids)
    ensures events[j].Passing? ==> HasRecord(tables[j + 1], x)
    ensures events[j].Passing? && (forall m | j < m < k :: !IsPurge(events[m])) ==> HasRecord(tables[k], x)
  {
    hide Happens, IsPurge, IsRecord;
    j := LostAt(sha, tables, events, i, k, x);
    if events[j].Passing? {
      var id :| id in RecordIds(tables[j + 1], x);
      if forall m | j < m < k :: !IsPurge(events[m]) {
        RecordsStay(sha, tables, events, j + 1, k, x);
        assert id in RecordIds(tables[k], x);
      }
    }
  }

  /** A row is only ever gone by a purge. */
  lemma {:induction false} StaysUnpurged(sha: string -> string, tables: seq<Table>, events: seq<Event>, i: nat, k: nat, x: string)
    requires History(sha, tables, events) && i <= k < |tables| && x in tables[i] && forall m | i <= m < k :: !IsPurge(events[m])
    ensures x in tables[k]
    decreases k
  {
    hide Happens, IsPurge;
    if i < k {
      StaysUnpurged(sha, tables, events, i, k - 1, x);
      EventKeepsRow(sha, tables[k - 1], events[k - 1], tables[k], x);
    }
  }

  lemma EventKeepsRow(sha: string -> string, t: Table, e: Event, u: Table, x: string)
    requires Happens(sha, t, e, u) && !IsPurge(e) && x in t
    ensures x in u
  {
    hide Pass, Redactable, Allocated, RecordIds;
    match e
    case Passing(candidates, failedOn) => PassCounts(sha, t, candidates, u, failedOn, x);
    case Storing(step) =>
      if step.Allocating? && step.row.originId == step.row.id {
        var sealed :| Allocated(sha, t, step.row, step.salt, sealed) && u == InsertRow(t, sealed);
      }
  }

  lemma {:induction false} HistoryKeepsChained(sha: string -> string, tables: seq<Table>, events: seq<Event>, k: nat)
    requires DigestLike(sha) && History(sha, tables, events) && k < |tables| && Chained(sha, tables[0])
    ensures Chained(sha, tables[k])
  {
    hide Chained, Pass, Redactable, Next, DigestLike;
    if k > 0 {
      HistoryKeepsChained(sha, tables, events, k - 1);
      var t, e, u := tables[k - 1], events[k - 1], tables[k];
      assert Happens(sha, t, e, u);
      match e
      case Passing(candidates, failedOn) => PassKeepsChained(sha, t, candidates, u, failedOn);
      case Storing(step) => StepKeepsChained(sha, t, step, u);
    }
  }

  /** The store verifies throughout. */
  lemma HistoryVerifies(sha: string -> string, tables: seq<Table>, events: seq<Event>, k: nat, rows: seq<Row>)
    requires DigestLike(sha) && History(sha, tables, events) && k < |tables| && Chained(sha, tables[0]) && Lists(rows, tables[k])
    ensures FirstBreak(GoCheck(sha), rows, [], false) == None && FirstBreak(PyCheck(sha), rows, [], false) == None
  {
    hide Chained, History, Lists, FirstBreak, DigestLike;
    HistoryKeepsChained(sha, tables, events, k);
    ChainedVerifies(sha, tables[k], rows);
  }

  /******* The code *******/

  predicate BySeqOnly(a: Row, b: Row) { a.seqNo <= b.seqNo }

  lemma BySeqOnlyOrders()
    ensures TotalOrder(BySeqOnly)
  {
  }

  /** Rows whose detail a form "1" hash covers, so that it must stay. */
  predicate IsPassedOver(r: Row, before: Time, codes: seq<string>)
  {
    r.timestamp < before && r.code in codes && !Clears(r) && r.detail.Some?
  }

  ghost function PassedOver(t: Table, left: set<string>, before: Time, codes: seq<string>): set<string>
  {
    set id | id in t && id !in left && IsPassedOver(t[id], before, codes)
  }

  lemma PassedOverStep(t: Table, left: set<string>, before: Time, codes: seq<string>, id: string)
    requires id in t && id in left
    ensures |PassedOver(t, left - {id}, before, codes)| ==
      |PassedOver(t, left, before, codes)| + if IsPassedOver(t[id], before, codes) then 1 else 0
  {
    var was := PassedOver(t, left, before, codes);
    assert PassedOver(t, left - {id}, before, codes) == if IsPassedOver(t[id], before, codes) then was + {id} else was;
  }

  /** ListRedactionCandidates: the candidates' rows, by seq, and how many rows
      must keep what they hold. */
  method ListRedactionCandidates(store: SqliteStore, before: Time, codes: seq<string>) returns (out: seq<Row>, skipped: nat)
    requires Keyed(store.table)
    ensures Sorted(BySeqOnly, out) && Pairwise(OtherId, out)
    ensures forall r :: r in out <==> r in store.table.Values && IsCandidate(r, before, codes)
    ensures skipped == |PassedOver(store.table, {}, before, codes)|
  {
    hide Keyed, IsCandidate, IsPassedOver, Sort;
    var t := store.table;
    out, skipped := [], 0;
    if |codes| == 0 {
      NoCodes(before);
      assert PassedOver(t, {}, before, codes) == {};
      return;
    }
    var left := t.Keys;
    ScanEnds(t);
    assert PassedOver(t, left, before, codes) == {};
    while left != {}
      invariant left <= t.Keys && Pairwise(OtherId, out)
      invariant forall r :: r in out <==> Scanned(t, left, r) && IsCandidate(r, before, codes)
      invariant skipped == |PassedOver(t, left, before, codes)|
      decreases |left|
    {
      var id :| id in left;
      PassedOverStep(t, left, before, codes, id);
      if IsPassedOver(t[id], before, codes) {
        skipped := skipped + 1;
      }
      ScanStep(t, left, id);
      KeyedId(t, id);
      if IsCandidate(t[id], before, codes) {
        assert forall r | r in out :: r.id != id;
        out := out + [t[id]];
      }
      left := left - {id};
    }
    BySeqOnlyOrders();
    SortSorts(BySeqOnly, out);
    SortKeepsPairwise(BySeqOnly, OtherId, out);
    out := Sort(BySeqOnly, out);
  }

  lemma NoCodes(before: Time)
    ensures forall r :: !IsCandidate(r, before, []) && !IsPassedOver(r, before, [])
  {
  }

  /** How a store call for one candidate goes wrong; a call that fails may have
      taken effect. */
  datatype Fault = NoFault | EmitFails(stored: bool) | RedactFails(redacted: bool)

  function Ids(rows: seq<Row>): seq<string> { seq(|rows|, i requires 0 <= i < |rows| => rows[i].id) }

  lemma CandidatesRedactable(t: Table, rows: seq<Row>, before: Time, codes: seq<string>)
    requires Keyed(t) && Pairwise(OtherId, rows) && forall r | r in rows :: r in t.Values && IsCandidate(r, before, codes)
    ensures Redactable(t, Ids(rows))
  {
    var ids := Ids(rows);
    forall i, j | 0 <= i < j < |ids| ensures ids[i] != ids[j] { assert OtherId(rows[i], rows[j]); }
    forall x | x in ids ensures x in t && t[x].detail.Some? && Clears(t[x]) {
      var i :| 0 <= i < |rows| && ids[i] == x;
      assert rows[i] in rows;
    }
  }

  /** What the rest of the pass does from here, the whole pass does from the start. */
  ghost predicate GoesOn(sha: string -> string, t0: Table, all: seq<string>, t: Table, rest: seq<string>)
  {
    forall u, f :: Pass(sha, t, rest, u, f) ==> Pass(sha, t0, all, u, f)
  }

  lemma GoesOnStep(sha: string -> string, t0: Table, all: seq<string>, t: Table, rest: seq<string>, m: Table)
    requires rest != [] && GoesOn(sha, t0, all, t, rest) && Recorded(sha, t, rest[0], m)
    ensures GoesOn(sha, t0, all, RedactRows(m, [rest[0]]), rest[1..])
    ensures Pass(sha, t0, all, m, Some(rest[0])) && Pass(sha, t0, all, RedactRows(m, [rest[0]]), Some(rest[0]))
  {
    hide Recorded, RedactRows;
    var w := RedactRows(m, [rest[0]]);
    assert Pass(sha, t, rest, m, Some(rest[0]));
    assert Pass(sha, t, rest, w, Some(rest[0]));
    forall u, f | Pass(sha, w, rest[1..], u, f) ensures Pass(sha, t0, all, u, f) {
      assert Pass(sha, t, rest, u, f);
    }
  }

  lemma GoesOnFailing(sha: string -> string, t0: Table, all: seq<string>, t: Table, rest: seq<string>)
    requires GoesOn(sha, t0, all, t, rest)
    ensures rest != [] ==> Pass(sha, t0, all, t, Some(rest[0]))
    ensures rest == [] ==> Pass(sha, t0, all, t, None)
  {
    hide Recorded, RedactRows;
    assert rest != [] ==> Pass(sha, t, rest, t, Some(rest[0]));
    assert rest == [] ==> Pass(sha, t, rest, t, None);
  }

  /** RedactExpired over the listed rows. `record(i)` is the event to emit for
      the i-th, with an id of its own. */
  method RedactListed(store: SqliteStore, rows: seq<Row>, record: nat -> Row, salt: string, faults: nat -> Fault)
    returns (redacted: seq<string>, failedOn: Option<string>)
    requires Keyed(store.table) && salt != ""
    requires forall i :: record(i).id !in store.table && record(i).originId == record(i).id
    requires forall i, j :: i != j ==> record(i).id != record(j).id
    modifies store
    ensures Pass(store.sha, old(store.table), Ids(rows), store.table, failedOn)
    ensures redacted <= Ids(rows) && (failedOn.None? ==> redacted == Ids(rows))
  {
    hide Keyed, Recorded, Pass, Next, RedactRows, GoesOn, InsertRow, Allocated;
    redacted, failedOn := [], None;
    ghost var t, all := store.table, Ids(rows);
    Starts(store.sha, t, all);
    for i := 0 to |rows|
      invariant Keyed(store.table) && GoesOn(store.sha, t, all, store.table, all[i..])
      invariant redacted == all[..i]
      invariant forall k: nat | k >= i :: record(k).id !in store.table
    {
      var x := rows[i].id;
      assert all[i..][0] == x && all[i..][1..] == all[i + 1..];
      GoesOnFailing(store.sha, t, all, store.table, all[i..]);
      var fault := faults(i);
      if fault == EmitFails(false) {
        failedOn := Some(x);
        return;
      }
      var row := record(i).(code := REDACTED, target := x);
      ghost var before := store.table;
      var stored := store.AllocateAndInsertOriginated(row, salt);
      IsRecorded(store.sha, before, x, row, salt, stored.value, store.table);
      AllocateKeeps(store.sha, before, row, salt, stored.value, store.table);
      GoesOnStep(store.sha, t, all, before, all[i..], store.table);
      if fault == EmitFails(true) || fault == RedactFails(false) {
        failedOn := Some(x);
        return;
      }
      ghost var recorded := store.table;
      var done := store.Redact([x]);
      RedactKeeps(store.sha, recorded, x, store.table);
      if fault == RedactFails(true) {
        failedOn := Some(x);
        return;
      }
      redacted := redacted + done;
    }
    assert all[|rows|..] == [] && all[..|rows|] == all;
    GoesOnFailing(store.sha, t, all, store.table, []);
  }

  lemma Starts(sha: string -> string, t: Table, all: seq<string>)
    ensures GoesOn(sha, t, all, t, all[0..])
  {
    assert all[0..] == all;
  }

  lemma IsRecorded(sha: string -> string, t: Table, x: string, row: Row, salt: string, sealed: Row, u: Table)
    requires IsRecord(row, x) && row.id !in t && row.originId == row.id && salt != ""
    requires Allocated(sha, t, row, salt, sealed) && u == InsertRow(t, sealed)
    ensures Recorded(sha, t, x, u)
  {
    hide Allocated, InsertRow;
  }

  lemma AllocateKeeps(sha: string -> string, t: Table, row: Row, salt: string, sealed: Row, u: Table)
    requires Keyed(t) && Allocated(sha, t, row, salt, sealed) && u == InsertRow(t, sealed)
    ensures Keyed(u) && forall id | id in u :: id in t || id == row.id
  {
    hide Allocated;
    AllocatedPlace(sha, t, row, salt, sealed);
    if !Conflicts(t, sealed) { AddedRow(t, AsStored(sealed)); }
  }

  lemma RedactKeeps(sha: string -> string, t: Table, x: string, u: Table)
    requires Keyed(t) && Next(sha, t, Redacting([x]), u)
    ensures Keyed(u) && u.Keys == t.Keys && u == RedactRows(t, [x])
  {
    hide Keyed, Redacted;
    RedactInPlace(t, x);
    UpdateKeepsKeyed(t, u);
  }

  lemma RedactInPlace(t: Table, x: string)
    ensures UpdatedInPlace(t, RedactRows(t, [x]))
  {
  }

  /** RedactExpired: a pass over the candidates there are. */
  method RedactExpired(store: SqliteStore, before: Time, codes: seq<string>, record: nat -> Row, salt: string, faults: nat -> Fault)
    returns (redacted: seq<string>, failedOn: Option<string>, ghost candidates: seq<string>)
    requires Keyed(store.table) && salt != ""
    requires forall i :: record(i).id !in store.table && record(i).originId == record(i).id
    requires forall i, j :: i != j ==> record(i).id != record(j).id
    modifies store
    ensures Happens(store.sha, old(store.table), Passing(candidates, failedOn), store.table)
    ensures forall x :: x in candidates <==> x in old(store.table) && IsCandidate(old(store.table)[x], before, codes)
    ensures redacted <= candidates && (failedOn.None? ==> redacted == candidates)
  {
    hide Keyed, Pass, IsCandidate, Redactable;
    var rows, skipped := ListRedactionCandidates(store, before, codes);
    candidates := Ids(rows);
    CandidatesRedactable(store.table, rows, before, codes);
    CandidateIds(store.table, rows, before, codes);
    redacted, failedOn := RedactListed(store, rows, record, salt, faults);
  }

  lemma CandidateIds(t: Table, rows: seq<Row>, before: Time, codes: seq<string>)
    requires Keyed(t) && forall r :: r in rows <==> r in t.Values && IsCandidate(r, before, codes)
    ensures forall x :: x in Ids(rows) <==> x in t && IsCandidate(t[x], before, codes)
  {
    hide IsCandidate;
    forall x | x in Ids(rows) ensures x in t && IsCandidate(t[x], before, codes) {
      var i :| 0 <= i < |rows| && Ids(rows)[i] == x;
      assert rows[i] in rows;
    }
    forall x | x in t && IsCandidate(t[x], before, codes) ensures x in Ids(rows) {
      assert t[x] in t.Values;
      var i :| 0 <= i < |rows| && rows[i] == t[x];
      assert Ids(rows)[i] == x;
    }
  }
}
