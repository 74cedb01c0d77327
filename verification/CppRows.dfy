/** The C++ SDK's rows as JSON: Row::to_json, json_members_, row_from_json_. */
module CppRows {
  import opened Text
  import opened CppStrings
  import opened CppFields

  /******* Splitting an object into its members *******/

  predicate IsWhite(c: char) { c == ' ' || c == '\t' || c == '\n' || c == '\r' }

  function SkipWhite(t: string): (u: string)
    ensures |u| <= |t|
  {
    if t != "" && IsWhite(t[0]) then SkipWhite(t[1..]) else t
  }

  /** What follows a string, from behind its opening quote; None if it does not
      end. */
  function AfterString(t: string): (r: Option<string>)
    ensures r.Some? ==> |r.value| < |t|
    decreases |t|
  {
    if t == "" then None
    else if t[0] == '"' then Some(t[1..])
    else if t[0] != '\\' then AfterString(t[1..])
    else if |t| < 2 then None
    else AfterString(t[2..])
  }

  predicate Opens(c: char) { c == '{' || c == '[' }

  predicate Closes(c: char) { c == '}' || c == ']' }

  /** What follows a nested value; strings in it are passed over whole. */
  function AfterNested(t: string, depth: int): (r: Option<string>)
    ensures r.Some? ==> |r.value| <= |t|
    decreases |t|
  {
    if t == "" then Some("")
    else if t[0] == '"' then
      var rest := AfterString(t[1..]);
      if rest.None? then None else AfterNested(rest.value, depth)
    else if Opens(t[0]) then AfterNested(t[1..], depth + 1)
    else if Closes(t[0]) then (if depth == 1 then Some(t[1..]) else AfterNested(t[1..], depth - 1))
    else AfterNested(t[1..], depth)
  }

  function AfterValue(t: string): (r: Option<string>)
    ensures r.Some? ==> |r.value| <= |t|
  {
    if t != "" && t[0] == '"' then AfterString(t[1..])
    else if t != "" && Opens(t[0]) then AfterNested(t, 0)
    else Some(SkipValue(t))
  }

  function TrimRight(s: string): string
  {
    if s != "" && IsWhite(s[|s| - 1]) then TrimRight(s[..|s| - 1]) else s
  }

  /** One member: its key and value as written, and what follows. */
  function OneMember(t: string): (r: Option<(string, string, string)>)
    ensures r.Some? ==> |r.value.2| < |t|
  {
    var s := SkipWhite(t);
    if s == "" || s[0] != '"' then None
    else
      var rest := AfterString(s[1..]);
      if rest.None? then None
      else
        var key := s[1..|s| - |rest.value| - 1];
        var colon := SkipWhite(rest.value);
        if colon == "" || colon[0] != ':' then None
        else
          var v := SkipWhite(colon[1..]);
          var after := AfterValue(v);
          if after.None? then None else Some((key, TrimRight(v[..|v| - |after.value|]), after.value))
  }

  /** The loop of json_members_, from behind the brace. */
  function MembersFrom(t: string, sofar: Fields): Fields
    decreases |t|
  {
    var m := OneMember(t);
    if m.None? then sofar
    else
      var (key, val, after) := m.value;
      var next := SkipWhite(after);
      if next == "" || next[0] != ',' then sofar[key := val] else MembersFrom(next[1..], sofar[key := val])
  }

  function ObjectMembers(j: string): Fields
  {
    var t := SkipToBrace(j);
    if t == "" then map[] else MembersFrom(t[1..], map[])
  }

  /******* json_members_ *******/

  method PassWhite(j: string, start: nat) returns (i: nat)
    requires start <= |j|
    ensures start <= i <= |j| && j[i..] == SkipWhite(j[start..])
  {
    i := start;
    while i < |j| && IsWhite(j[i])
      invariant start <= i <= |j| && SkipWhite(j[i..]) == SkipWhite(j[start..])
    {
      assert j[i..][1..] == j[i + 1..];
      i := i + 1;
    }
  }

  /** skip_string, at the opening quote; it may end up beyond the text. */
  method PassString(j: string, start: nat) returns (i: nat)
    requires start < |j|
    ensures i > start
    ensures if i <= |j| then AfterString(j[start + 1..]) == Some(j[i..]) else AfterString(j[start + 1..]) == None
  {
    i := start + 1;
    while i < |j| && j[i] != '"'
      invariant start < i
      invariant if i <= |j| then AfterString(j[i..]) == AfterString(j[start + 1..]) else AfterString(j[start + 1..]) == None
      decreases |j| - i
    {
      assert j[i..][1..] == j[i + 1..];
      if j[i] == '\\' {
        if i + 2 <= |j| { assert j[i..][2..] == j[i + 2..]; }
        i := i + 1;
      }
      i := i + 1;
    }
    if i < |j| { assert j[i..][1..] == j[i + 1..]; }
    i := i + 1;
  }

  method PassNested(j: string, start: nat) returns (i: nat)
    requires start < |j| && Opens(j[start])
    ensures i > start
    ensures if i <= |j| then AfterNested(j[start..], 0) == Some(j[i..]) else AfterNested(j[start..], 0) == None
  {
    hide AfterString;
    i := start;
    var depth := 0;
    ghost var all := AfterNested(j[start..], 0);
    while i < |j|
      invariant start <= i && (i == start ==> depth == 0)
      invariant if i <= |j| then AfterNested(j[i..], depth) == all else all == None
      decreases |j| - i
    {
      ghost var t := j[i..];
      assert t[1..] == j[i + 1..];
      if j[i] == '"' {
        i := PassString(j, i);
        continue;
      }
      if Opens(j[i]) {
        depth := depth + 1;
      } else if Closes(j[i]) {
        depth := depth - 1;
        if depth == 0 {
          i := i + 1;
          return;
        }
      }
      i := i + 1;
    }
  }

  method PassMemberValue(j: string, start: nat) returns (i: nat)
    requires start <= |j|
    ensures i >= start
    ensures if i <= |j| then AfterValue(j[start..]) == Some(j[i..]) else AfterValue(j[start..]) == None
  {
    hide AfterString, AfterNested;
    if start < |j| && j[start] == '"' {
      assert j[start..][1..] == j[start + 1..];
      i := PassString(j, start);
    } else if start < |j| && Opens(j[start]) {
      i := PassNested(j, start);
    } else {
      i := PassValue(j, start);
    }
  }

  method Trim(s: string) returns (out: string)
    ensures out == TrimRight(s)
  {
    out := s;
    while out != "" && IsWhite(out[|out| - 1])
      invariant TrimRight(out) == TrimRight(s)
      decreases |out|
    {
      out := out[..|out| - 1];
    }
  }

  /** json_members_. */
  method JsonMembers(j: string) returns (out: Fields)
    ensures out == ObjectMembers(j)
  {
    hide AfterString, AfterValue, MembersFrom, TrimRight, OneMember;
    out := map[];
    var i := 0;
    assert j[0..] == j;
    while i < |j| && j[i] != '{'
      invariant 0 <= i <= |j| && SkipToBrace(j[i..]) == SkipToBrace(j)
    {
      assert j[i..][1..] == j[i + 1..];
      i := i + 1;
    }
    if i >= |j| {
      return;
    }
    assert j[i..][1..] == j[i + 1..];
    i := i + 1;
    ghost var all := MembersFrom(j[i..], map[]);
    while true
      invariant 0 <= i <= |j| && MembersFrom(j[i..], out) == all
      decreases |j| - i
    {
      MembersStep(j[i..], out);
      var ok, key, val, after := ReadMember(j, i);
      if !ok {
        return;
      }
      out := out[key := val];
      i := PassWhite(j, after);
      if i >= |j| || j[i] != ',' {
        return;
      }
      assert j[i..][1..] == j[i + 1..];
      i := i + 1;
    }
  }

  method ReadMember(j: string, start: nat) returns (ok: bool, key: string, val: string, after: nat)
    requires start <= |j|
    ensures ok <==> OneMember(j[start..]).Some?
    ensures ok ==> start < after <= |j| && OneMember(j[start..]) == Some((key, val, j[after..]))
  {
    hide AfterString, AfterValue, TrimRight, SkipWhite;
    ok, key, val, after := false, "", "", start;
    var i := PassWhite(j, start);
    if i >= |j| || j[i] != '"' {
      return;
    }
    var keyStart := i + 1;
    assert j[i..][1..] == j[i + 1..];
    ghost var s := j[i..];
    i := PassString(j, i);
    if i > |j| {
      return;
    }
    var name := j[keyStart..i - 1];
    Slices(j, keyStart - 1, 1, i - keyStart);
    assert |s| - |j[i..]| - 1 == i - keyStart;
    i := PassWhite(j, i);
    if i >= |j| || j[i] != ':' {
      return;
    }
    assert j[i..][1..] == j[i + 1..];
    i := PassWhite(j, i + 1);
    var valStart := i;
    i := PassMemberValue(j, i);
    if i > |j| {
      return;
    }
    var text := Trim(j[valStart..i]);
    Slices(j, valStart, 0, i - valStart);
    ok, key, val, after := true, name, text, i;
  }

  lemma Slices(j: string, at: nat, from: nat, to: nat)
    requires at <= |j| && from <= to && at + to <= |j|
    ensures j[at..][from..to] == j[at + from..at + to]
  {
  }

  lemma MembersStep(t: string, sofar: Fields)
    ensures MembersFrom(t, sofar) ==
      if OneMember(t).None? then sofar
      else
        var (key, val, after) := OneMember(t).value;
        var next := SkipWhite(after);
        if next == "" || next[0] != ',' then sofar[key := val] else MembersFrom(next[1..], sofar[key := val])
  {
    hide OneMember;
  }

  /******* Rows *******/

  datatype CppRow = CppRow(
    wireVersion: string, id: string, originId: string, seqNo: int, timestamp: string,
    code: string, action: string, severity: string, serviceId: string, sourceNodeId: string,
    tenantId: string, actor: string, actorKind: string, target: string, category: string,
    domain: string, how: string, requestId: string, detail: Fields, pii: bool, shippedAt: string)

  const COLUMNS: nat := 21

  /** The columns in the order to_json writes them. */
  function Key(i: nat): string
  {
    match i
    case 0 => "wire_version"
    case 1 => "id"
    case 2 => "origin_id"
    case 3 => "monotonic_seq"
    case 4 => "timestamp"
    case 5 => "code"
    case 6 => "action"
    case 7 => "severity"
    case 8 => "service_id"
    case 9 => "source_node_id"
    case 10 => "tenant_id"
    case 11 => "actor"
    case 12 => "actor_kind"
    case 13 => "target"
    case 14 => "category"
    case 15 => "domain"
    case 16 => "method"
    case 17 => "request_id"
    case 18 => "detail"
    case 19 => "pii_in_detail"
    case _ => "shipped_at"
  }

  /** The string columns' contents. */
  function Column(r: CppRow, i: nat): string
  {
    match i
    case 0 => r.wireVersion
    case 1 => r.id
    case 2 => r.originId
    case 4 => r.timestamp
    case 5 => r.code
    case 6 => r.action
    case 7 => r.severity
    case 8 => r.serviceId
    case 9 => r.sourceNodeId
    case 10 => r.tenantId
    case 11 => r.actor
    case 12 => r.actorKind
    case 13 => r.target
    case 14 => r.category
    case 15 => r.domain
    case 16 => r.how
    case 17 => r.requestId
    case _ => r.shippedAt
  }

  function ColumnText(r: CppRow, detail: string, i: nat): string
  {
    if i == 3 then SignedDecimal(r.seqNo)
    else if i == 10 && r.tenantId == "" then "null"
    else if i == 18 then detail
    else if i == 19 then (if r.pii then "true" else "false")
    else JsonStr(Column(r, i))
  }

  /** shipped_at is written only when it is set. */
  function Written(r: CppRow): nat { if r.shippedAt == "" then COLUMNS - 1 else COLUMNS }

  function ColumnsFrom(r: CppRow, detail: string, i: nat): string
    requires i < Written(r)
    decreases COLUMNS - i, 0
  {
    "\"" + (Key(i) + ("\"" + (":" + (ColumnText(r, detail, i) + ColumnsAfter(r, detail, i + 1)))))
  }

  function ColumnsAfter(r: CppRow, detail: string, i: nat): string
    decreases COLUMNS - i, 1
  {
    if i < Written(r) then "," + ColumnsFrom(r, detail, i) else "}"
  }

  /** Row::to_json, given the text of its detail. */
  function ToJson(r: CppRow, detail: string): string { "{" + ColumnsFrom(r, detail, 0) }

  function Raw(m: Fields, key: string): string { if key in m then m[key] else "" }

  /** A string column; null or absent reads as "". */
  function StrColumn(m: Fields, key: string): string
  {
    var v := Raw(m, key);
    if v == "" || v[0] != '"' then "" else ReadStr(v[1..], "").0
  }

  predicate StollSpace(c: char) { c == ' ' || 9 <= c as int <= 13 }

  function StollSkip(s: string): string { if s != "" && StollSpace(s[0]) then StollSkip(s[1..]) else s }

  function LeadingDigits(s: string): (n: nat)
    ensures n <= |s| && AllDigits(s[..n])
  {
    if s != "" && IsDigit(s[0]) then
      var k := LeadingDigits(s[1..]);
      assert forall i | 1 <= i < 1 + k :: s[i] == s[1..][..k][i - 1];
      1 + k
    else 0
  }

  /** std::stoll: None when it throws. */
  function Stoll(text: string): Option<int>
  {
    var s := StollSkip(text);
    var signed := s != "" && (s[0] == '-' || s[0] == '+');
    var t := if signed then s[1..] else s;
    var n := LeadingDigits(t);
    var size: int := Number(t[..n]);
    var value := if signed && s[0] == '-' then -size else size;
    if n > 0 && -0x8000_0000_0000_0000 <= value <= 0x7fff_ffff_ffff_ffff then Some(value) else None
  }

  /** row_from_json_; a seq that does not parse is left at 0. */
  function RowFromMembers(m: Fields): CppRow
  {
    CppRow(
      StrColumn(m, Key(0)), StrColumn(m, Key(1)), StrColumn(m, Key(2)),
      (var n := Stoll(Raw(m, Key(3))); if n.Some? then n.value else 0), StrColumn(m, Key(4)),
      StrColumn(m, Key(5)), StrColumn(m, Key(6)), StrColumn(m, Key(7)), StrColumn(m, Key(8)), StrColumn(m, Key(9)),
      StrColumn(m, Key(10)), StrColumn(m, Key(11)), StrColumn(m, Key(12)), StrColumn(m, Key(13)), StrColumn(m, Key(14)),
      StrColumn(m, Key(15)), StrColumn(m, Key(16)), StrColumn(m, Key(17)),
      ParseFields(Raw(m, Key(18))), Raw(m, Key(19)) == "true", StrColumn(m, Key(20)))
  }

  function RowFromJson(j: string): CppRow { RowFromMembers(ObjectMembers(j)) }

  method ReadStrColumn(m: Fields, key: string) returns (s: string)
    ensures s == StrColumn(m, key)
  {
    hide ReadStr;
    var v := Raw(m, key);
    if v == "" || v[0] != '"' {
      return "";
    }
    var end;
    s, end := ReadJsonStr(v, 1);
  }

  /** row_from_json_. */
  method ReadRow(j: string) returns (r: CppRow)
    ensures r == RowFromJson(j)
  {
    hide StrColumn, Key, ParseFields, ObjectMembers, Stoll;
    var m := JsonMembers(j);
    var wireVersion := ReadStrColumn(m, Key(0));
    var id := ReadStrColumn(m, Key(1));
    var originId := ReadStrColumn(m, Key(2));
    var seqNo := 0;
    var n := Stoll(Raw(m, Key(3)));
    if n.Some? {
      seqNo := n.value;
    }
    var timestamp := ReadStrColumn(m, Key(4));
    var code := ReadStrColumn(m, Key(5));
    var action := ReadStrColumn(m, Key(6));
    var severity := ReadStrColumn(m, Key(7));
    var serviceId := ReadStrColumn(m, Key(8));
    var sourceNodeId := ReadStrColumn(m, Key(9));
    var tenantId := ReadStrColumn(m, Key(10));
    var actor := ReadStrColumn(m, Key(11));
    var actorKind := ReadStrColumn(m, Key(12));
    var target := ReadStrColumn(m, Key(13));
    var category := ReadStrColumn(m, Key(14));
    var domain := ReadStrColumn(m, Key(15));
    var how := ReadStrColumn(m, Key(16));
    var requestId := ReadStrColumn(m, Key(17));
    var detail := ParseFlatJsonFields(Raw(m, Key(18)));
    var shippedAt := ReadStrColumn(m, Key(20));
    r := CppRow(wireVersion, id, originId, seqNo, timestamp, code, action, severity, serviceId, sourceNodeId,
                tenantId, actor, actorKind, target, category, domain, how, requestId, detail, Raw(m, Key(19)) == "true", shippedAt);
  }

  /******* The columns' names are distinct *******/

  /** A name's length, its first and its last character. */
  const MARKS: seq<(nat, char, char)> :=
    [(12, 'w', 'n'), (2, 'i', 'd'), (9, 'o', 'd'), (13, 'm', 'q'), (9, 't', 'p'), (4, 'c', 'e'),
     (6, 'a', 'n'), (8, 's', 'y'), (10, 's', 'd'), (14, 's', 'd'), (9, 't', 'd'), (5, 'a', 'r'),
     (10, 'a', 'd'), (6, 't', 't'), (8, 'c', 'y'), (6, 'd', 'n'), (6, 'm', 'd'), (10, 'r', 'd'),
     (6, 'd', 'l'), (13, 'p', 'l'), (10, 's', 't')]

  lemma MarksDiffer(i: nat, j: nat)
    requires i < j < COLUMNS == |MARKS|
    ensures MARKS[i] != MARKS[j]
  {
  }

  predicate Marked(i: nat)
    requires i < |MARKS|
  {
    var k := Key(i);
    k != "" && (|k|, k[0], k[|k| - 1]) == MARKS[i] && '"' !in k && '\\' !in k
  }

  lemma MarksFrom0()
    ensures Marked(0) && Marked(1) && Marked(2)
  {
  }

  lemma MarksFrom3()
    ensures Marked(3) && Marked(4) && Marked(5)
  {
  }

  lemma MarksFrom6()
    ensures Marked(6) && Marked(7) && Marked(8)
  {
  }

  lemma MarksFrom9()
    ensures Marked(9) && Marked(10) && Marked(11)
  {
  }

  lemma MarksFrom12()
    ensures Marked(12) && Marked(13) && Marked(14)
  {
  }

  lemma MarksFrom15()
    ensures Marked(15) && Marked(16) && Marked(17)
  {
  }

  lemma MarksFrom18()
    ensures Marked(18) && Marked(19) && Marked(20)
  {
  }

  lemma KeyMark(i: nat)
    requires i < COLUMNS == |MARKS|
    ensures Marked(i)
  {
    hide Marked;
    MarksFrom0();
    MarksFrom3();
    MarksFrom6();
    MarksFrom9();
    MarksFrom12();
    MarksFrom15();
    MarksFrom18();
  }

  lemma KeysDiffer(i: nat, j: nat)
    requires i < j < COLUMNS
    ensures Key(i) != Key(j)
  {
    hide Key;
    KeyMark(i);
    KeyMark(j);
    MarksDiffer(i, j);
  }

  lemma KeyCopied(i: nat)
    requires i < COLUMNS
    ensures Copied(Key(i))
  {
    hide Key;
    KeyMark(i);
    assert forall n | 0 <= n < |Key(i)| :: Key(i)[n] in Key(i);
  }
}
