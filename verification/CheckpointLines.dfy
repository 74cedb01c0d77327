/** One checkpoint as a line of the checkpoint file: how Go writes it and how
    it is read back. */
module CheckpointLines {
  import opened Text
  import opened Json
  import opened Encoders
  import opened Rows

  const MIN_INT64: int := -0x8000_0000_0000_0000
  const MAX_INT64: int := 0x7fff_ffff_ffff_ffff

  /** A checkpoint's seq is an int64. */
  predicate Storable(cp: Checkpoint) { MIN_INT64 <= cp.seqNo <= MAX_INT64 }

  /******* Reading: parseCheckpoint *******/

  /** Keys to values; of a key given twice the last counts. */
  function FieldMap(ms: Members): map<string, Json>
  {
    if ms.NoMembers? then map[] else map[ms.key := ms.value] + FieldMap(ms.rest)
  }

  function IntOf(token: string): Option<int>
  {
    var negative := token != "" && token[0] == '-';
    var digits := if negative then token[1..] else token;
    if digits == "" || !AllDigits(digits) then None
    else
      var size: int := Number(digits);
      var n := if negative then -size else size;
      if MIN_INT64 <= n <= MAX_INT64 then Some(n) else None
  }

  function StringField(fields: map<string, Json>, key: string): Option<string>
  {
    if key in fields && fields[key].Str? then Some(fields[key].s) else None
  }

  function IntField(fields: map<string, Json>, key: string): Option<int>
  {
    if key in fields && fields[key].Num? then IntOf(fields[key].token) else None
  }

  function FromFields(fields: map<string, Json>): Option<Checkpoint>
  {
    var node, seqNo := StringField(fields, "source_node_id"), IntField(fields, "monotonic_seq");
    var hash, at := StringField(fields, "hash"), StringField(fields, "anchored_at");
    if |fields| == 4 && node.Some? && seqNo.Some? && hash.Some? && at.Some? then
      Some(Checkpoint(node.value, seqNo.value, hash.value, at.value))
    else None
  }

  function ParseLine(line: string): Option<Checkpoint>
  {
    var p := ReadValue(line);
    if p.Got? && SkipSpace(p.rest) == "" && p.value.Obj? then FromFields(FieldMap(p.value.members)) else None
  }

  /******* Writing: json.Encoder, which escapes HTML *******/

  function HtmlChar(c: char): (s: string)
    ensures s != ""
  {
    if c == '<' || c == '>' || c == '&' then UnicodeEscape(c) else GoChar(c)
  }

  function HtmlString(s: string): string
  {
    if s == "" then "" else HtmlChar(s[0]) + HtmlString(s[1..])
  }

  /** A string value and what follows it. */
  function StringThen(s: string, rest: string): string { "\"" + (HtmlString(s) + "\"" + rest) }

  function MemberThen(key: string, value: string): string { "\"" + key + "\"" + ":" + value }

  function Line(cp: Checkpoint): string
  {
    "{" + MemberThen("source_node_id", StringThen(cp.node, "," + FromSeq(cp)))
  }

  function FromSeq(cp: Checkpoint): string
  {
    MemberThen("monotonic_seq", SignedDecimal(cp.seqNo) + ("," + FromHash(cp)))
  }

  function FromHash(cp: Checkpoint): string
  {
    MemberThen("hash", StringThen(cp.hash, "," + FromAnchor(cp)))
  }

  function FromAnchor(cp: Checkpoint): string { MemberThen("anchored_at", StringThen(cp.anchoredAt, "}")) }

  /******* Reading back *******/

  lemma RawChar(c: char, rest: string)
    requires c != '"' && c != '\\' && c >= ' '
    ensures ReadString([c] + rest) == Prepend(c, ReadString(rest))
  {
    Behind(c, rest);
  }

  lemma EscapedChar(c: char, rest: string)
    ensures ReadString(UnicodeEscape(c) + rest) == Prepend(c, ReadString(rest))
  {
    hide EscapeLength, EscapeValue, UnicodeEscape;
    LongEscape(c, UnicodeEscape(c), rest);
    EscapeStep(UnicodeEscape(c) + rest, |UnicodeEscape(c)|, c, rest);
  }

  lemma HtmlCharReads(c: char, rest: string)
    ensures ReadString(HtmlChar(c) + rest) == Prepend(c, ReadString(rest))
  {
    hide ReadString, UnicodeEscape, EscapeLength;
    if HtmlChar(c) == EscChar(c, true) {
      CharReadsBack(c, true, rest);
    } else if HtmlChar(c) == UnicodeEscape(c) {
      EscapedChar(c, rest);
    } else {
      RawChar(c, rest);
    }
  }

  lemma {:induction false} HtmlReads(s: string, rest: string)
    ensures ReadString(HtmlString(s) + "\"" + rest) == Got(s, rest)
  {
    if s == "" {
      Behind('"', rest);
      assert "" + "\"" + rest == ['"'] + rest;
    } else {
      var h, t := HtmlChar(s[0]), HtmlString(s[1..]);
      hide ReadString, HtmlChar;
      Assoc(h, t, "\"");
      Assoc(h, t + "\"", rest);
      HtmlCharReads(s[0], t + "\"" + rest);
      HtmlReads(s[1..], rest);
      assert s == [s[0]] + s[1..];
    }
  }

  lemma StringThenReads(s: string, rest: string)
    ensures ReadValue(StringThen(s, rest)) == Got(Str(s), rest)
  {
    hide ReadString, HtmlString;
    Behind('"', HtmlString(s) + "\"" + rest);
    HtmlReads(s, rest);
  }

  predicate Plain(s: string) { forall i | 0 <= i < |s| :: s[i] != '"' && s[i] != '\\' && s[i] >= ' ' }

  lemma {:induction false} PlainReads(s: string, rest: string)
    requires Plain(s)
    ensures ReadString(s + "\"" + rest) == Got(s, rest)
  {
    if s == "" {
      Behind('"', rest);
      assert "" + "\"" + rest == ['"'] + rest;
    } else {
      var t := s[1..];
      assert s == [s[0]] + t;
      PlainReads(t, rest);
      Assoc([s[0]], t, "\"");
      Assoc([s[0]], t + "\"", rest);
      RawChar(s[0], t + "\"" + rest);
    }
  }

  /** A member, then the rest of the object. */
  lemma MemberThenReads(key: string, value: Json, text: string, after: string)
    requires Plain(key)
    requires ReadValue(text) == Got(value, after) && after != "" && (after[0] == ',' || after[0] == '}')
    ensures ReadMembers(MemberThen(key, text)) ==
      if after[0] == '}' then Got(Member(key, value, NoMembers), after[1..])
      else if ReadMembers(after[1..]).Got? then
        Got(Member(key, value, ReadMembers(after[1..]).value), ReadMembers(after[1..]).rest)
      else Fail
  {
    hide ReadString, ReadValue, ReadMembers;
    PlainReads(key, ":" + text);
    MemberStep(key, value, key, text, after);
  }

  function Fields(cp: Checkpoint): Members
  {
    Member("source_node_id", Str(cp.node), Member("monotonic_seq", Num(IntToken(cp.seqNo)),
      Member("hash", Str(cp.hash), Member("anchored_at", Str(cp.anchoredAt), NoMembers))))
  }

  lemma AnchorReads(cp: Checkpoint)
    ensures ReadMembers(FromAnchor(cp)) == Got(Member("anchored_at", Str(cp.anchoredAt), NoMembers), "")
  {
    hide ReadString, ReadValue, ReadMembers, StringThen;
    StringThenReads(cp.anchoredAt, "}");
    MemberThenReads("anchored_at", Str(cp.anchoredAt), StringThen(cp.anchoredAt, "}"), "}");
  }

  lemma HashReads(cp: Checkpoint)
    ensures ReadMembers(FromHash(cp)) == Got(Fields(cp).rest.rest, "")
  {
    hide ReadString, ReadValue, ReadMembers, StringThen, FromAnchor;
    AnchorReads(cp);
    var after := "," + FromAnchor(cp);
    StringThenReads(cp.hash, after);
    Behind(',', FromAnchor(cp));
    MemberThenReads("hash", Str(cp.hash), StringThen(cp.hash, after), after);
  }

  lemma SeqReads(cp: Checkpoint)
    ensures ReadMembers(FromSeq(cp)) == Got(Fields(cp).rest, "")
  {
    hide ReadString, ReadValue, ReadMembers, FromHash, SignedDecimal, IntToken, IsNumber;
    HashReads(cp);
    var after := "," + FromHash(cp);
    Behind(',', FromHash(cp));
    NumReadsBack(IntToken(cp.seqNo), after);
    MemberThenReads("monotonic_seq", Num(IntToken(cp.seqNo)), SignedDecimal(cp.seqNo) + after, after);
  }

  lemma NodeReads(cp: Checkpoint)
    ensures ReadMembers(Line(cp)[1..]) == Got(Fields(cp), "") && Line(cp)[1..] != "" && Line(cp)[1] == '"'
  {
    hide ReadString, ReadValue, ReadMembers, StringThen, FromSeq;
    SeqReads(cp);
    var after := "," + FromSeq(cp);
    StringThenReads(cp.node, after);
    Behind(',', FromSeq(cp));
    var text := StringThen(cp.node, after);
    MemberThenReads("source_node_id", Str(cp.node), text, after);
    Behind('{', MemberThen("source_node_id", text));
  }

  /** The whole line is one object, and nothing is left of it. */
  lemma LineReads(cp: Checkpoint)
    ensures ReadValue(Line(cp)) == Got(Obj(Fields(cp)), "") && Line(cp)[0] == '{'
  {
    hide ReadString, ReadMembers, FromSeq, StringThen;
    NodeReads(cp);
    assert Line(cp)[0] == '{';
    assert SkipSpace(Line(cp)) == Line(cp) && SkipSpace(Line(cp)[1..]) == Line(cp)[1..];
  }

  lemma IntReads(n: int)
    requires MIN_INT64 <= n <= MAX_INT64
    ensures IntOf(SignedDecimal(n)) == Some(n)
  {
    if n < 0 {
      NumberOfDecimal(-n);
      assert ("-" + Decimal(-n))[1..] == Decimal(-n);
    } else {
      NumberOfDecimal(n);
    }
  }

  lemma LineParses(cp: Checkpoint)
    requires Storable(cp)
    ensures ParseLine(Line(cp)) == Some(cp)
  {
    hide ReadValue, Line, IntOf, SignedDecimal, FieldMap, Fields, FromFields;
    LineReads(cp);
    FieldsGive(cp);
  }

  lemma FieldsGive(cp: Checkpoint)
    requires Storable(cp)
    ensures FromFields(FieldMap(Fields(cp))) == Some(cp)
  {
    hide FieldMap, Fields, IntOf, SignedDecimal, IntToken;
    IntReads(cp.seqNo);
    FieldsMapped(cp);
  }

  lemma FieldsMapped(cp: Checkpoint)
    ensures var m := FieldMap(Fields(cp));
      && m.Keys == {"source_node_id", "monotonic_seq", "hash", "anchored_at"} && |m| == 4
      && m["source_node_id"] == Str(cp.node) && m["monotonic_seq"] == Num(IntToken(cp.seqNo))
      && m["hash"] == Str(cp.hash) && m["anchored_at"] == Str(cp.anchoredAt)
  {
    hide IntToken;
    FourKeys();
    FourMapped("source_node_id", Str(cp.node), "monotonic_seq", Num(IntToken(cp.seqNo)),
               "hash", Str(cp.hash), "anchored_at", Str(cp.anchoredAt));
  }

  lemma FourMapped(k: string, v: Json, k2: string, v2: Json, k3: string, v3: Json, k4: string, v4: Json)
    requires k != k2 && k != k3 && k != k4 && k2 != k3 && k2 != k4 && k3 != k4
    ensures var m := FieldMap(Member(k, v, Member(k2, v2, Member(k3, v3, Member(k4, v4, NoMembers)))));
      m.Keys == {k, k2, k3, k4} && |m| == 4 && m[k] == v && m[k2] == v2 && m[k3] == v3 && m[k4] == v4
  {
    hide FieldMap;
    NoFields();
    var ms4 := Member(k4, v4, NoMembers);
    AddField(k4, v4, NoMembers);
    var ms3 := Member(k3, v3, ms4);
    AddField(k3, v3, ms4);
    var ms2 := Member(k2, v2, ms3);
    AddField(k2, v2, ms3);
    AddField(k, v, ms2);
  }

  lemma NoFields()
    ensures FieldMap(NoMembers) == map[]
  {
  }

  lemma AddField(k: string, v: Json, ms: Members)
    requires k !in FieldMap(ms)
    ensures var m, rest := FieldMap(Member(k, v, ms)), FieldMap(ms);
      m.Keys == {k} + rest.Keys && |m| == 1 + |rest| && m[k] == v && forall o | o in rest :: m[o] == rest[o]
  {
    var m, rest := FieldMap(Member(k, v, ms)), FieldMap(ms);
    assert m == map[k := v] + rest;
    assert |m.Keys| == |m| && |rest.Keys| == |rest|;
    assert m.Keys == {k} + rest.Keys;
  }

  lemma FourKeys()
    ensures "source_node_id" != "monotonic_seq" && "source_node_id" != "hash" && "source_node_id" != "anchored_at"
    ensures "monotonic_seq" != "hash" && "monotonic_seq" != "anchored_at" && "hash" != "anchored_at"
  {
    assert |"source_node_id"| == 14 && |"monotonic_seq"| == 13 && |"hash"| == 4 && |"anchored_at"| == 11;
  }

  /******* A line is one line *******/

  lemma {:induction false} HtmlOneLine(s: string)
    ensures '\n' !in HtmlString(s)
  {
    hide HtmlChar;
    if s != "" {
      CharOneLine(s[0]);
      HtmlOneLine(s[1..]);
    }
  }

  lemma CharOneLine(c: char)
    ensures '\n' !in HtmlChar(c)
  {
    hide UnicodeEscape;
    EscapeOneLine(c);
  }

  lemma EscapeOneLine(c: char)
    ensures '\n' !in UnicodeEscape(c)
  {
  }

  lemma DecimalOneLine(n: int)
    ensures '\n' !in SignedDecimal(n)
  {
    var d := Decimal(if n < 0 then -n else n);
    assert forall c | c in d :: IsDigit(c);
  }

  lemma LineIsOneLine(cp: Checkpoint)
    ensures '\n' !in Line(cp)
  {
    hide HtmlString, SignedDecimal;
    HtmlOneLine(cp.node);
    HtmlOneLine(cp.hash);
    HtmlOneLine(cp.anchoredAt);
    DecimalOneLine(cp.seqNo);
    assert '\n' !in FromAnchor(cp);
    assert '\n' !in FromHash(cp);
    assert '\n' !in FromSeq(cp);
  }
}
