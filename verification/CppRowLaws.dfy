/** A row that the C++ SDK writes reads back as the same row. */
module CppRowLaws {
  import opened Text
  import opened Json
  import opened CppStrings
  import opened CppFields
  import opened CppRows

  /******* Passing over strings *******/

  lemma {:induction false} PassCopied(b: string, t: string)
    requires Copied(b)
    ensures AfterString(b + t) == AfterString(t)
  {
    if b == "" {
      assert b + t == t;
    } else {
      assert (b + t)[1..] == b[1..] + t;
      PassCopied(b[1..], t);
    }
  }

  lemma PassEscape(c: char, t: string)
    requires IsAscii(c)
    ensures AfterString(EscapeByte(c) + t) == AfterString(t)
  {
    hide AfterString;
    var e := EscapeByte(c);
    if |e| == 1 {
      PassCopied(e, t);
    } else {
      PassBackslash(e, t);
      if |e| > 2 {
        var h := Hex4(c as int);
        assert e[2..] == h;
        HexCopied(c as int);
        PassCopied(h, t);
      } else {
        assert e[2..] == "" && "" + t == t;
      }
    }
  }

  lemma PassBackslash(e: string, t: string)
    requires |e| >= 2 && e[0] == '\\'
    ensures AfterString(e + t) == AfterString(e[2..] + t)
  {
    assert (e + t)[2..] == e[2..] + t;
  }

  lemma HexCopied(n: nat)
    requires n < 0x10000
    ensures Copied(Hex4(n))
  {
  }

  /** A written string ends where it should. */
  lemma {:induction false} PassEnc(s: string, rest: string)
    ensures AfterString(Enc(s) + ("\"" + rest)) == Some(rest)
    decreases |s|
  {
    hide AfterString, EscapeByte, SeqLen;
    var after := "\"" + rest;
    if s == "" {
      assert "" + after == after;
      QuoteEnds(rest);
    } else if IsAscii(s[0]) {
      Assoc(EscapeByte(s[0]), Enc(s[1..]), after);
      PassEscape(s[0], Enc(s[1..]) + after);
      PassEnc(s[1..], rest);
    } else {
      var n := if SeqLen(s) == 0 then 1 else SeqLen(s);
      var piece := if SeqLen(s) == 0 then Replacement() else s[..n];
      Assoc(piece, Enc(s[n..]), after);
      if SeqLen(s) > 0 { SeqCopied(s); }
      PassCopied(piece, Enc(s[n..]) + after);
      PassEnc(s[n..], rest);
    }
  }

  lemma QuoteEnds(rest: string)
    ensures AfterString("\"" + rest) == Some(rest)
  {
    assert ("\"" + rest)[1..] == rest;
  }

  /******* Passing over values *******/

  /** A value's text, alone and in front of what may follow it. */
  predicate Solid(v: string, next: string)
  {
    && v != "" && !IsWhite(v[0]) && !IsWhite(v[|v| - 1])
    && AfterValue(v + next) == Some(next)
  }

  lemma TextSolid(s: string, next: string)
    ensures Solid(JsonStr(s), next)
  {
    hide AfterString, Enc;
    JsonStrThen(s, next);
    PassEnc(s, next);
  }

  lemma {:induction false} PassScalar(v: string, next: string)
    requires EndsValue(next) && ',' !in v && '}' !in v
    ensures SkipValue(v + next) == next
  {
    if v == "" {
      assert v + next == next;
    } else {
      assert (v + next)[1..] == v[1..] + next;
      assert v[0] in v;
      PassScalar(v[1..], next);
    }
  }

  lemma WordSolid(v: string, next: string)
    requires (v == "null" || v == "true" || v == "false") && EndsValue(next)
    ensures Solid(v, next)
  {
    hide SkipValue;
    assert ',' !in v && '}' !in v;
    PassScalar(v, next);
    assert (v + next)[0] == v[0];
  }

  lemma NumberSolid(n: int, next: string)
    requires EndsValue(next)
    ensures Solid(SignedDecimal(n), next)
  {
    hide SkipValue, Decimal;
    var v := SignedDecimal(n);
    DecimalChars(n);
    PassScalar(v, next);
    assert (v + next)[0] == v[0] && v[0] in v && v[|v| - 1] in v;
  }

  lemma DecimalChars(n: int)
    ensures forall c | c in SignedDecimal(n) :: IsDigit(c) || c == '-'
  {
    hide Decimal;
    var d := Decimal(if n < 0 then -n else n);
    assert forall c | c in d :: IsDigit(c);
  }

  /******* Passing over the detail *******/

  lemma NestedString(s: string, rest: string, depth: int)
    ensures AfterNested(JsonStr(s) + rest, depth) == AfterNested(rest, depth)
  {
    hide AfterString, Enc;
    JsonStrThen(s, rest);
    PassEnc(s, rest);
  }

  predicate Inert(c: char) { c != '"' && !Opens(c) && !Closes(c) }

  lemma {:induction false} NestedInert(b: string, rest: string, depth: int)
    requires forall i | 0 <= i < |b| :: Inert(b[i])
    ensures AfterNested(b + rest, depth) == AfterNested(rest, depth)
  {
    if b == "" {
      assert b + rest == rest;
    } else {
      assert (b + rest)[1..] == b[1..] + rest;
      NestedInert(b[1..], rest, depth);
    }
  }

  lemma NestedValue(key: string, val: string, code: string, rest: string, depth: int)
    ensures AfterNested(ValueText(key, val, code) + rest, depth) == AfterNested(rest, depth)
  {
    hide AfterNested, JsonStr;
    if key == PII {
      NestedInert(ValueText(key, val, code), rest, depth);
    } else if IsSeqNumber(key, val, code) {
      NestedInert(val, rest, depth);
    } else {
      NestedString(val, rest, depth);
    }
  }

  lemma {:induction false} NestedMembers(keys: seq<string>, f: Fields, code: string, rest: string)
    requires forall k | k in keys :: k in f
    ensures AfterNested(MembersThen(keys, f, code, rest), 1) == Some(rest)
    decreases |keys|
  {
    hide AfterNested, JsonStr, ValueText;
    if keys == [] {
      NestedBrace(rest);
    } else {
      var k, next := keys[0], NextThen(keys[1..], f, code, rest);
      assert k in keys;
      var value := ValueText(k, f[k], code);
      NestedString(k, ":" + (value + next), 1);
      NestedInert(":", value + next, 1);
      NestedValue(k, f[k], code, next, 1);
      NestedMembers(keys[1..], f, code, rest);
      if |keys| == 1 {
        NestedBrace(rest);
      } else {
        NestedInert(",", MembersThen(keys[1..], f, code, rest), 1);
      }
    }
  }

  lemma NestedBrace(rest: string)
    ensures AfterNested("}" + rest, 1) == Some(rest)
  {
    assert ("}" + rest)[1..] == rest;
  }

  lemma {:induction false} MembersThenJoin(keys: seq<string>, f: Fields, code: string, rest: string)
    requires forall k | k in keys :: k in f
    ensures MembersThen(keys, f, code, "") + rest == MembersThen(keys, f, code, rest)
    ensures MembersThen(keys, f, code, "") != "" && MembersThen(keys, f, code, "")[|MembersThen(keys, f, code, "")| - 1] == '}'
    decreases |keys|
  {
    hide JsonStr, ValueText;
    if keys == [] {
      assert "}" + "" + rest == "}" + rest;
    } else {
      var k := keys[0];
      assert k in keys;
      var value, next := ValueText(k, f[k], code), NextThen(keys[1..], f, code, "");
      MembersThenJoin(keys[1..], f, code, rest);
      if |keys| > 1 { Assoc(",", MembersThen(keys[1..], f, code, ""), rest); }
      Assoc(JsonStr(k), ":" + (value + next), rest);
      Assoc(":", value + next, rest);
      Assoc(value, next, rest);
    }
  }

  /** A detail, as fields_to_json writes it. */
  function DetailText(keys: seq<string>, f: Fields, code: string): string
    requires forall k | k in keys :: k in f
  {
    "{" + MembersThen(keys, f, code, "")
  }

  lemma DetailSolid(keys: seq<string>, f: Fields, code: string, next: string)
    requires forall k | k in keys :: k in f
    ensures Solid(DetailText(keys, f, code), next)
  {
    hide MembersThen;
    var members := MembersThen(keys, f, code, "");
    MembersThenJoin(keys, f, code, next);
    NestedMembers(keys, f, code, next);
    var v := DetailText(keys, f, code);
    Assoc("{", members, next);
    var t := "{" + MembersThen(keys, f, code, next);
    assert v + next == t && t[1..] == MembersThen(keys, f, code, next);
    assert v[|v| - 1] == members[|members| - 1];
  }

  /******* Columns *******/

  /** The detail's keys in any order, and a seq that is an int64. */
  ghost predicate Typed(r: CppRow, keys: seq<string>)
  {
    Enumerates(keys, r.detail) && -0x8000_0000_0000_0000 <= r.seqNo <= 0x7fff_ffff_ffff_ffff
  }

  /** Valid UTF-8 text throughout, non-empty detail keys, a true or false flag. */
  ghost predicate Readable(r: CppRow)
  {
    (forall k | k in r.detail :: Keepable(k, r.detail[k])) && forall i: nat | i < COLUMNS && IsText(i) :: ValidUtf8(Column(r, i))
  }

  lemma AfterEnds(r: CppRow, detail: string, i: nat)
    ensures EndsValue(ColumnsAfter(r, detail, i))
  {
    hide Key, ColumnText;
  }

  lemma ColumnSolid(r: CppRow, keys: seq<string>, i: nat, next: string)
    requires Typed(r, keys) && i < COLUMNS && EndsValue(next)
    ensures Solid(ColumnText(r, DetailText(keys, r.detail, r.code), i), next)
  {
    hide Solid, Column, DetailText, SignedDecimal, JsonStr, Typed;
    DetailKeys(r, keys);
    if i == 3 {
      NumberSolid(r.seqNo, next);
    } else if i == 10 && r.tenantId == "" {
      WordSolid("null", next);
    } else if i == 18 {
      DetailSolid(keys, r.detail, r.code, next);
    } else if i == 19 {
      WordSolid(if r.pii then "true" else "false", next);
    } else {
      TextSolid(Column(r, i), next);
    }
  }

  lemma DetailKeys(r: CppRow, keys: seq<string>)
    requires Typed(r, keys)
    ensures forall k | k in keys :: k in r.detail
  {
    hide Column;
  }

  lemma KeyPasses(key: string, rest: string)
    requires Copied(key)
    ensures AfterString(key + ("\"" + rest)) == Some(rest)
  {
    hide AfterString;
    PassCopied(key, "\"" + rest);
    QuoteEnds(rest);
  }

  lemma SolidUntrimmed(v: string)
    requires v != "" && !IsWhite(v[|v| - 1])
    ensures TrimRight(v) == v
  {
  }

  /** A member as written is read as its key and value, and what follows. */
  lemma MemberReads(key: string, v: string, next: string)
    requires Copied(key) && Solid(v, next)
    ensures OneMember("\"" + (key + ("\"" + (":" + (v + next))))) == Some((key, v, next))
  {
    hide AfterString, AfterValue, TrimRight, Copied;
    var value := v + next;
    var colon := ":" + value;
    var body := key + ("\"" + colon);
    var t := "\"" + body;
    assert t[0] == '"' && t[1..] == body && SkipWhite(t) == t;
    KeyPasses(key, colon);
    assert |t| - |colon| - 1 == |key| + 1 && t[1..|key| + 1] == key;
    assert SkipWhite(colon) == colon && colon[1..] == value && value[0] == v[0] && SkipWhite(value) == value;
    assert value[..|value| - |next|] == v;
    SolidUntrimmed(v);
  }

  function Added(r: CppRow, detail: string, i: nat, sofar: Fields): Fields
    requires i <= Written(r)
    decreases COLUMNS - i
  {
    if i == Written(r) then sofar else Added(r, detail, i + 1, sofar[Key(i) := ColumnText(r, detail, i)])
  }

  lemma {:induction false} ColumnsRead(r: CppRow, keys: seq<string>, i: nat, sofar: Fields)
    requires Typed(r, keys) && i < Written(r) && forall k | k in keys :: k in r.detail
    ensures var d := DetailText(keys, r.detail, r.code); MembersFrom(ColumnsFrom(r, d, i), sofar) == Added(r, d, i, sofar)
    decreases COLUMNS - i
  {
    hide MembersFrom, OneMember, Key, ColumnText, DetailText, Typed, Solid, Copied;
    var d := DetailText(keys, r.detail, r.code);
    var text := ColumnsFrom(r, d, i);
    var next := ColumnsAfter(r, d, i + 1);
    AfterEnds(r, d, i + 1);
    ColumnSolid(r, keys, i, next);
    KeyCopied(i);
    MemberReads(Key(i), ColumnText(r, d, i), next);
    MembersStep(text, sofar);
    assert SkipWhite(next) == next;
    var more := sofar[Key(i) := ColumnText(r, d, i)];
    if i + 1 < Written(r) {
      assert next[1..] == ColumnsFrom(r, d, i + 1);
      ColumnsRead(r, keys, i + 1, more);
    } else {
      AddedNone(r, d, i + 1, more);
    }
  }

  lemma AddedNone(r: CppRow, detail: string, i: nat, sofar: Fields)
    requires i == Written(r)
    ensures Added(r, detail, i, sofar) == sofar
  {
  }

  /** Looking a column up finds what was written for it. */
  lemma {:induction false} LookUp(r: CppRow, detail: string, i: nat, sofar: Fields, j: nat)
    requires i <= Written(r) && j < COLUMNS
    ensures var m := Added(r, detail, i, sofar);
      && (i <= j < Written(r) ==> Raw(m, Key(j)) == ColumnText(r, detail, j))
      && (j < i || j >= Written(r) ==> Raw(m, Key(j)) == Raw(sofar, Key(j)))
    decreases COLUMNS - i
  {
    hide Key, ColumnText;
    if i < Written(r) {
      LookUp(r, detail, i + 1, sofar[Key(i) := ColumnText(r, detail, i)], j);
      if j < i { KeysDiffer(j, i); }
      if i < j { KeysDiffer(i, j); }
    }
  }

  ghost function MembersOf(r: CppRow, keys: seq<string>): Fields
    requires forall k | k in keys :: k in r.detail
  {
    ObjectMembers(ToJson(r, DetailText(keys, r.detail, r.code)))
  }

  lemma RawColumn(r: CppRow, keys: seq<string>, j: nat)
    requires Typed(r, keys) && j < COLUMNS && forall k | k in keys :: k in r.detail
    ensures Raw(MembersOf(r, keys), Key(j)) == if j < Written(r) then ColumnText(r, DetailText(keys, r.detail, r.code), j) else ""
  {
    hide MembersFrom, ColumnsFrom, Key, ColumnText, DetailText, Typed, Added;
    var d := DetailText(keys, r.detail, r.code);
    var text := ToJson(r, d);
    assert text[0] == '{' && text[1..] == ColumnsFrom(r, d, 0) && SkipToBrace(text) == text;
    ColumnsRead(r, keys, 0, map[]);
    LookUp(r, d, 0, map[], j);
  }

  lemma StringReads(s: string)
    ensures JsonStr(s) != "" && JsonStr(s)[0] == '"' && ReadStr(JsonStr(s)[1..], "").0 == Repaired(s)
  {
    hide ReadStr, Enc, Repaired;
    assert JsonStr(s) + "" == JsonStr(s);
    JsonStrThen(s, "");
    EncReads(s, "", "");
    assert "" + Repaired(s) == Repaired(s);
  }

  /** Every text column comes back repaired. */
  lemma StringColumn(r: CppRow, keys: seq<string>, j: nat)
    requires Typed(r, keys) && j < COLUMNS && IsText(j) && forall k | k in keys :: k in r.detail
    ensures StrColumn(MembersOf(r, keys), Key(j)) == Repaired(Column(r, j))
  {
    hide ReadStr, JsonStr, Key, MembersOf, DetailText, Typed;
    RawColumn(r, keys, j);
    StringReads(Column(r, j));
  }

  predicate IsText(j: nat) { j != 3 && j != 18 && j != 19 }

  lemma NumberColumn(n: int)
    requires -0x8000_0000_0000_0000 <= n <= 0x7fff_ffff_ffff_ffff
    ensures Stoll(SignedDecimal(n)) == Some(n)
  {
    hide Decimal, Number, LeadingDigits;
    var d := Decimal(if n < 0 then -n else n);
    NumberOfDecimal(if n < 0 then -n else n);
    AllRun(d);
    assert d[..|d|] == d;
    assert d[0] in d;
    if n < 0 { assert ("-" + d)[1..] == d; }
  }

  lemma {:induction false} AllRun(s: string)
    requires AllDigits(s)
    ensures LeadingDigits(s) == |s|
  {
    if s != "" { AllRun(s[1..]); }
  }

  lemma OtherColumns(r: CppRow, keys: seq<string>)
    requires Typed(r, keys) && forall k | k in keys :: k in r.detail
    ensures var m := MembersOf(r, keys);
      && Stoll(Raw(m, Key(3))) == Some(r.seqNo) && (Raw(m, Key(19)) == "true") == r.pii
      && (ParseFields(Raw(m, Key(18))) == r.detail <==> forall k | k in r.detail :: Keepable(k, r.detail[k]))
  {
    hide Key, MembersOf, ParseFields, SignedDecimal, Stoll, Keepable;
    RawColumn(r, keys, 3);
    RawColumn(r, keys, 18);
    RawColumn(r, keys, 19);
    NumberColumn(r.seqNo);
    FieldsRoundTrip(r.detail, r.code, keys);
  }

  lemma RepairedExact(s: string)
    ensures Repaired(s) == s <==> ValidUtf8(s)
  {
    hide Repaired, ValidUtf8;
    if ValidUtf8(s) { ValidUnchanged(s); }
    RepairedValid(s);
  }

  /** row_from_json_(r.to_json()) is r exactly when the row is valid UTF-8 text,
      with non-empty detail keys and a true or false PII flag, whatever the
      order of the detail. */
  lemma RowRoundTrip(r: CppRow, keys: seq<string>)
    requires Typed(r, keys) && forall k | k in keys :: k in r.detail
    ensures RowFromJson(ToJson(r, DetailText(keys, r.detail, r.code))) == r <==> Readable(r)
  {
    hide Key, MembersOf, DetailText, Stoll, ParseFields, StrColumn, Raw, Typed, Keepable, ValidUtf8, Repaired;
    var m := MembersOf(r, keys);
    forall j: nat | j < COLUMNS ensures IsText(j) ==> (StrColumn(m, Key(j)) == Column(r, j) <==> ValidUtf8(Column(r, j))) {
      if IsText(j) {
        StringColumn(r, keys, j);
        RepairedExact(Column(r, j));
      }
    }
    OtherColumns(r, keys);
    IsMembersOf(r, keys);
    FromColumns(r, m);
  }

  lemma IsMembersOf(r: CppRow, keys: seq<string>)
    requires forall k | k in keys :: k in r.detail
    ensures RowFromJson(ToJson(r, DetailText(keys, r.detail, r.code))) == RowFromMembers(MembersOf(r, keys))
  {
    hide RowFromMembers, ObjectMembers, ToJson;
  }

  lemma FromColumns(r: CppRow, m: Fields)
    ensures RowFromMembers(m) == r <==>
      && (forall j: nat | j < COLUMNS && IsText(j) :: StrColumn(m, Key(j)) == Column(r, j))
      && (if Stoll(Raw(m, Key(3))).Some? then Stoll(Raw(m, Key(3))).value else 0) == r.seqNo
      && ParseFields(Raw(m, Key(18))) == r.detail && (Raw(m, Key(19)) == "true") == r.pii
  {
    hide Key, Stoll, ParseFields, StrColumn, Raw;
  }
}
