/** The C++ SDK's flat objects: fields_to_json and parse_flat_json_fields. */
module CppFields {
  import opened Text
  import opened Sorting
  import opened CppStrings

  type Fields = map<string, string>

  const PII: string := "_pii_in_detail"
  const REDACTED_SEQ: string := "redacted_seq"
  const AUDIT_ROW_REDACTED: string := "AUDIT_ROW_REDACTED"

  /******* Writing *******/

  /** is_redacted_seq_number_: a canonical JSON integer that fits int64. */
  predicate IsSeqNumber(key: string, val: string, code: string)
  {
    && key == REDACTED_SEQ && code == AUDIT_ROW_REDACTED
    && 0 < |val| <= 18 && (val == "0" || val[0] != '0') && AllDigits(val)
  }

  /** field_json_value_. */
  function ValueText(key: string, val: string, code: string): string
  {
    if key == PII then (if val == "true" then "true" else "false")
    else if IsSeqNumber(key, val, code) then val
    else JsonStr(val)
  }

  /** Members of these keys, up to and including the brace, and then `rest`. */
  function MembersThen(keys: seq<string>, f: Fields, code: string, rest: string): string
    requires forall k | k in keys :: k in f
    decreases |keys|, 0
  {
    if keys == [] then "}" + rest
    else JsonStr(keys[0]) + (":" + (ValueText(keys[0], f[keys[0]], code) + NextThen(keys[1..], f, code, rest)))
  }

  function NextThen(keys: seq<string>, f: Fields, code: string, rest: string): string
    requires forall k | k in keys :: k in f
    decreases |keys|, 1
  {
    if keys == [] then "}" + rest else "," + MembersThen(keys, f, code, rest)
  }

  /** The keys, each once. */
  ghost predicate Enumerates(keys: seq<string>, f: Fields)
  {
    (forall k :: k in keys <==> k in f) && forall i, j | 0 <= i < j < |keys| :: keys[i] != keys[j]
  }

  predicate ByBytes(a: string, b: string) { !Less(b, a) }

  method KeysOf(f: Fields) returns (keys: seq<string>)
    ensures Enumerates(keys, f)
  {
    keys := [];
    var left := f.Keys;
    while left != {}
      invariant left <= f.Keys && (forall k :: k in keys <==> k in f.Keys - left)
      invariant forall i, j | 0 <= i < j < |keys| :: keys[i] != keys[j]
      decreases |left|
    {
      var k :| k in left;
      assert k !in keys;
      keys := keys + [k];
      left := left - {k};
    }
  }

  /** fields_to_json, with the keys in order. */
  method FieldsToJson(f: Fields, code: string) returns (out: string, keys: seq<string>)
    ensures Enumerates(keys, f) && Sorted(ByBytes, keys)
    ensures out == "{" + MembersThen(keys, f, code, "")
  {
    hide ValueText, JsonStr, Less, Sort, Sorted;
    var sorted := KeysOf(f);
    SortedKeys(sorted);
    sorted := Sort(ByBytes, sorted);
    keys := sorted;
    out := "{";
    assert keys[0..] == keys;
    ghost var whole := "{" + MembersThen(keys, f, code, "");
    for i := 0 to |sorted|
      invariant if i == 0 then out == "{" else out + NextThen(sorted[i..], f, code, "") == whole
    {
      assert sorted[i] in sorted;
      ghost var tail := sorted[i..];
      assert tail[0] == sorted[i] && tail[1..] == sorted[i + 1..];
      if i > 0 {
        Assoc(out, ",", MembersThen(tail, f, code, ""));
        out := out + ",";
      }
      var key := sorted[i];
      var val := ValueText(key, f[key], code);
      MemberAppended(out, JsonStr(key), val, NextThen(sorted[i + 1..], f, code, ""));
      out := out + (JsonStr(key) + ":" + val);
    }
    assert sorted[|sorted|..] == [] && "}" + "" == "}";
    out := out + "}";
  }

  lemma MemberAppended(out: string, k: string, v: string, next: string)
    ensures out + (k + ":" + v) + next == out + (k + (":" + (v + next)))
  {
    Assoc(k, ":", v);
    Assoc(out, k + (":" + v), next);
    Assoc(k, ":" + v, next);
    Assoc(":", v, next);
  }

  predicate Differ(a: string, b: string) { a != b }

  lemma SortedKeys(keys: seq<string>)
    requires forall i, j | 0 <= i < j < |keys| :: keys[i] != keys[j]
    ensures var s := Sort(ByBytes, keys);
      Sorted(ByBytes, s) && (forall k :: k in s <==> k in keys) && forall i, j | 0 <= i < j < |s| :: s[i] != s[j]
  {
    hide Less, Sort;
    ByBytesOrders();
    SortSorts(ByBytes, keys);
    SortKeepsPairwise(ByBytes, Differ, keys);
    var s := Sort(ByBytes, keys);
    forall i, j | 0 <= i < j < |s| ensures s[i] != s[j] { assert Differ(s[i], s[j]); }
  }

  lemma ByBytesOrders()
    ensures TotalOrder(ByBytes)
  {
    hide Less;
    forall a: string, b: string ensures ByBytes(a, b) || ByBytes(b, a) {
      if Less(b, a) && Less(a, b) {
        LessTransitive(a, b, a);
        LessIrreflexive(a);
      }
    }
    forall a: string, b: string, c: string | ByBytes(a, b) && ByBytes(b, c) ensures ByBytes(a, c) {
      if Less(c, a) && a != b {
        LessConnected(a, b);
        LessTransitive(c, a, b);
      }
    }
  }

  /******* Reading *******/

  predicate IsSeparator(c: char) { c == ' ' || c == '\n' || c == '\r' || c == '\t' || c == ',' }

  function SkipSeparators(t: string): (u: string)
    ensures |u| <= |t|
  {
    if t != "" && IsSeparator(t[0]) then SkipSeparators(t[1..]) else t
  }

  function SkipColons(t: string): (u: string)
    ensures |u| <= |t|
  {
    if t != "" && (t[0] == ' ' || t[0] == ':') then SkipColons(t[1..]) else t
  }

  /** Without the closing quote, if there is one. */
  function PastQuote(t: string): (u: string)
    ensures |u| <= |t|
  {
    if t != "" then t[1..] else t
  }

  predicate EndsNumber(c: char) { c == ',' || c == '}' || c == ' ' || c == '\n' }

  function NumberEnd(t: string): (n: nat)
    ensures n <= |t|
  {
    if t == "" || EndsNumber(t[0]) then 0 else 1 + NumberEnd(t[1..])
  }

  function SkipValue(t: string): (u: string)
    ensures |u| <= |t|
  {
    if t == "" || t[0] == ',' || t[0] == '}' then t else SkipValue(t[1..])
  }

  /** The value at the start of `t`, None for one that is passed over, and what
      follows it. */
  function FieldValue(t: string): (r: (Option<string>, string))
    ensures |r.1| <= |t|
  {
    if t != "" && t[0] == '"' then
      var (val, rest) := ReadStr(t[1..], "");
      (Some(val), PastQuote(rest))
    else if "true" <= t then (Some("true"), t[4..])
    else if "false" <= t then (Some("false"), t[5..])
    else if t != "" && (t[0] == '-' || IsDigit(t[0])) then (Some(t[..NumberEnd(t)]), t[NumberEnd(t)..])
    else (None, SkipValue(t))
  }

  /** The loop of parse_flat_json_fields, from behind the brace. */
  function FieldsFrom(t: string, sofar: Fields): Fields
    decreases |t|
  {
    var s := SkipSeparators(t);
    if s == "" || s[0] != '"' then sofar
    else
      var (key, rest) := ReadStr(s[1..], "");
      var (val, next) := FieldValue(SkipColons(PastQuote(rest)));
      FieldsFrom(next, if val.Some? && key != "" then sofar[key := val.value] else sofar)
  }

  function SkipToBrace(t: string): (u: string)
    ensures |u| <= |t|
  {
    if t == "" || t[0] == '{' then t else SkipToBrace(t[1..])
  }

  function ParseFields(json: string): Fields
  {
    if |json| < 2 then map[]
    else
      var t := SkipToBrace(json);
      if t == "" then map[] else FieldsFrom(t[1..], map[])
  }

  /** parse_flat_json_fields. */
  method ParseFlatJsonFields(json: string) returns (out: Fields)
    ensures out == ParseFields(json)
  {
    hide FieldsFrom, FieldValue, ReadStr;
    out := map[];
    if |json| < 2 {
      return;
    }
    var i := 0;
    assert json[0..] == json;
    while i < |json| && json[i] != '{'
      invariant 0 <= i <= |json| && SkipToBrace(json[i..]) == SkipToBrace(json)
    {
      assert json[i..][1..] == json[i + 1..];
      i := i + 1;
    }
    if i >= |json| {
      return;
    }
    assert json[i..][1..] == json[i + 1..];
    i := i + 1;
    ghost var all := FieldsFrom(json[i..], map[]);
    while i < |json|
      invariant 0 <= i <= |json| && FieldsFrom(json[i..], out) == all
      decreases |json| - i
    {
      var start := i;
      i := PassSeparators(json, i);
      FieldsStep(json[start..], out);
      if i >= |json| || json[i] == '}' {
        return;
      }
      if json[i] != '"' {
        return;
      }
      assert json[i..][1..] == json[i + 1..];
      var key, at := ReadJsonStr(json, i + 1);
      i := at;
      if i < |json| {
        assert json[i..][1..] == json[i + 1..];
        i := i + 1;
      }
      i := PassColons(json, i);
      var val, next := ReadFieldValue(json, i);
      i := next;
      if val.Some? && key != "" {
        out := out[key := val.value];
      }
      NoMore(json[i..], out);
    }
    NoMore(json[i..], out);
  }

  lemma FieldsStep(t: string, sofar: Fields)
    ensures var s := SkipSeparators(t);
      FieldsFrom(t, sofar) ==
        if s == "" || s[0] != '"' then sofar
        else
          var (key, rest) := ReadStr(s[1..], "");
          var (val, next) := FieldValue(SkipColons(PastQuote(rest)));
          FieldsFrom(next, if val.Some? && key != "" then sofar[key := val.value] else sofar)
  {
    hide FieldValue, ReadStr;
  }

  lemma NoMore(t: string, sofar: Fields)
    ensures t == "" ==> FieldsFrom(t, sofar) == sofar
  {
  }

  method PassSeparators(json: string, start: nat) returns (i: nat)
    requires start <= |json|
    ensures start <= i <= |json| && json[i..] == SkipSeparators(json[start..])
  {
    i := start;
    while i < |json| && IsSeparator(json[i])
      invariant start <= i <= |json| && SkipSeparators(json[i..]) == SkipSeparators(json[start..])
    {
      assert json[i..][1..] == json[i + 1..];
      i := i + 1;
    }
  }

  method PassColons(json: string, start: nat) returns (i: nat)
    requires start <= |json|
    ensures start <= i <= |json| && json[i..] == SkipColons(json[start..])
  {
    i := start;
    while i < |json| && (json[i] == ' ' || json[i] == ':')
      invariant start <= i <= |json| && SkipColons(json[i..]) == SkipColons(json[start..])
    {
      assert json[i..][1..] == json[i + 1..];
      i := i + 1;
    }
  }

  method ReadFieldValue(json: string, start: nat) returns (val: Option<string>, i: nat)
    requires start <= |json|
    ensures start <= i <= |json| && (val, json[i..]) == FieldValue(json[start..])
  {
    hide ReadStr, NumberEnd, SkipValue;
    ghost var t := json[start..];
    i := start;
    if i < |json| && json[i] == '"' {
      assert t[1..] == json[start + 1..];
      var text, at := ReadJsonStr(json, i + 1);
      RestShorter(json[start + 1..]);
      i := at;
      val := Some(text);
      if i < |json| {
        assert json[i..][1..] == json[i + 1..];
        i := i + 1;
      }
    } else if i + 4 <= |json| && json[i..i + 4] == "true" {
      PrefixAt(json, i, 4, "true");
      val, i := Some("true"), i + 4;
    } else if i + 5 <= |json| && json[i..i + 5] == "false" {
      NotPrefixAt(json, i, "true");
      PrefixAt(json, i, 5, "false");
      val, i := Some("false"), i + 5;
    } else if i < |json| && (json[i] == '-' || IsDigit(json[i])) {
      NotPrefixAt(json, i, "true");
      NotPrefixAt(json, i, "false");
      var text, at := ReadNumber(json, i);
      val, i := Some(text), at;
    } else {
      NotPrefixAt(json, i, "true");
      NotPrefixAt(json, i, "false");
      i := PassValue(json, i);
      val := None;
    }
  }

  lemma RestShorter(t: string)
    ensures |ReadStr(t, "").1| <= |t|
  {
  }

  lemma PrefixAt(json: string, i: nat, n: nat, word: string)
    requires i + n <= |json| && n == |word| && json[i..i + n] == word
    ensures word <= json[i..] && json[i..][n..] == json[i + n..]
  {
    assert json[i..][..n] == json[i..i + n];
  }

  lemma NotPrefixAt(json: string, i: nat, word: string)
    requires i <= |json|
    ensures word <= json[i..] <==> i + |word| <= |json| && json[i..i + |word|] == word
  {
    if i + |word| <= |json| { assert json[i..][..|word|] == json[i..i + |word|]; }
  }

  method ReadNumber(json: string, start: nat) returns (text: string, i: nat)
    requires start <= |json|
    ensures start <= i <= |json| && text == json[start..][..NumberEnd(json[start..])] && json[i..] == json[start..][NumberEnd(json[start..])..]
  {
    text, i := "", start;
    while i < |json| && !EndsNumber(json[i])
      invariant start <= i <= |json| && text == json[start..i] && NumberEnd(json[start..]) == i - start + NumberEnd(json[i..])
    {
      assert json[i..][1..] == json[i + 1..];
      text := text + [json[i]];
      i := i + 1;
    }
    assert json[start..][..i - start] == json[start..i];
  }

  method PassValue(json: string, start: nat) returns (i: nat)
    requires start <= |json|
    ensures start <= i <= |json| && json[i..] == SkipValue(json[start..])
  {
    i := start;
    while i < |json| && json[i] != ',' && json[i] != '}'
      invariant start <= i <= |json| && SkipValue(json[i..]) == SkipValue(json[start..])
    {
      assert json[i..][1..] == json[i + 1..];
      i := i + 1;
    }
  }

  /******* Reading back *******/

  /** A field that survives: a key, valid text, and a true or false flag. */
  predicate Keepable(key: string, val: string)
  {
    key != "" && ValidUtf8(key) && ValidUtf8(val) && (key == PII ==> val == "true" || val == "false")
  }

  predicate EndsValue(next: string) { next != "" && (next[0] == ',' || next[0] == '}') }

  lemma JsonStrThen(s: string, rest: string)
    ensures JsonStr(s) + rest == "\"" + (Enc(s) + ("\"" + rest))
    ensures (JsonStr(s) + rest)[0] == '"' && (JsonStr(s) + rest)[1..] == Enc(s) + ("\"" + rest)
  {
    var q := "\"";
    Assoc(q + Enc(s), q, rest);
    Assoc(q, Enc(s), q + rest);
  }

  lemma {:induction false} DigitsEnd(val: string, next: string)
    requires AllDigits(val) && EndsValue(next)
    ensures NumberEnd(val + next) == |val|
  {
    if val == "" {
      assert val + next == next;
    } else {
      assert (val + next)[1..] == val[1..] + next;
      DigitsEnd(val[1..], next);
    }
  }

  lemma TextReads(val: string, next: string)
    ensures FieldValue(JsonStr(val) + next) == (Some(Repaired(val)), next)
  {
    hide ReadStr, Enc, Repaired;
    JsonStrThen(val, next);
    EncReads(val, next, "");
    assert "" + Repaired(val) == Repaired(val);
    assert ("\"" + next)[1..] == next;
  }

  lemma WordReads(word: string, next: string)
    requires word == "true" || word == "false"
    ensures FieldValue(word + next) == (Some(word), next)
  {
    var t := word + next;
    assert word <= t && t[|word|..] == next && t[0] == word[0];
  }

  lemma NumberReads(val: string, next: string)
    requires val != "" && AllDigits(val) && EndsValue(next)
    ensures FieldValue(val + next) == (Some(val), next)
  {
    hide NumberEnd;
    var t := val + next;
    DigitsEnd(val, next);
    assert t[0] == val[0] && t[..|val|] == val && t[|val|..] == next;
    assert !("true" <= t) && !("false" <= t);
  }

  /** What a value comes back as. */
  function ReadBack(key: string, val: string, code: string): string
  {
    if key == PII then (if val == "true" then "true" else "false")
    else if IsSeqNumber(key, val, code) then val
    else Repaired(val)
  }

  lemma ValueReads(key: string, val: string, code: string, next: string)
    requires EndsValue(next)
    ensures var t := ValueText(key, val, code) + next;
      FieldValue(t) == (Some(ReadBack(key, val, code)), next) && t != "" && t[0] != ' ' && t[0] != ':'
  {
    hide FieldValue, Repaired, JsonStr, IsSeqNumber;
    if key == PII {
      WordReads(if val == "true" then "true" else "false", next);
    } else if IsSeqNumber(key, val, code) {
      SeqDigits(key, val, code);
      NumberReads(val, next);
      assert (val + next)[0] == val[0];
    } else {
      TextReads(val, next);
      JsonStrThen(val, next);
    }
  }

  lemma SeqDigits(key: string, val: string, code: string)
    requires IsSeqNumber(key, val, code)
    ensures val != "" && AllDigits(val)
  {
  }

  /** A field read behind the others; one without a key is dropped. */
  function Stored(sofar: Fields, key: string, val: string, code: string): Fields
  {
    if Repaired(key) == "" then sofar else sofar[Repaired(key) := ReadBack(key, val, code)]
  }

  lemma FieldReads(key: string, val: string, code: string, next: string, sofar: Fields)
    requires EndsValue(next)
    ensures FieldsFrom(JsonStr(key) + (":" + (ValueText(key, val, code) + next)), sofar) == FieldsFrom(next, Stored(sofar, key, val, code))
  {
    hide FieldValue, JsonStr, ReadStr, Enc, ValueText, FieldsFrom, Repaired, ReadBack;
    var text := ValueText(key, val, code) + next;
    var after := ":" + text;
    var t := JsonStr(key) + after;
    JsonStrThen(key, after);
    EncReads(key, after, "");
    assert "" + Repaired(key) == Repaired(key);
    ValueReads(key, val, code, next);
    FieldsStep(t, sofar);
    assert SkipSeparators(t) == t;
    assert PastQuote("\"" + after) == after;
    assert after[1..] == text && SkipColons(text) == text && SkipColons(after) == SkipColons(text);
  }

  lemma CommaSkipped(t: string, sofar: Fields)
    ensures FieldsFrom("," + t, sofar) == FieldsFrom(t, sofar)
  {
    hide FieldsFrom, FieldValue, ReadStr;
    assert ("," + t)[1..] == t;
    FieldsStep("," + t, sofar);
    FieldsStep(t, sofar);
  }

  function Adding(keys: seq<string>, f: Fields, code: string, sofar: Fields): Fields
    requires forall k | k in keys :: k in f
  {
    if keys == [] then sofar else Adding(keys[1..], f, code, Stored(sofar, keys[0], f[keys[0]], code))
  }

  predicate GoodKey(k: string) { k != "" && ValidUtf8(k) }

  lemma GoodKeyKept(k: string)
    ensures GoodKey(k) ==> Repaired(k) == k
    ensures Repaired(k) != "" ==> GoodKey(Repaired(k))
  {
    hide Repaired, ValidUtf8;
    if GoodKey(k) { ValidUnchanged(k); }
    RepairedValid(k);
  }

  /** Only good keys come back. */
  lemma {:induction false} AddedKeys(keys: seq<string>, f: Fields, code: string, sofar: Fields)
    requires (forall k | k in keys :: k in f) && forall k | k in sofar :: GoodKey(k)
    ensures forall k | k in Adding(keys, f, code, sofar) :: GoodKey(k)
  {
    hide Repaired, GoodKey, ReadBack;
    if keys != [] {
      GoodKeyKept(keys[0]);
      AddedKeys(keys[1..], f, code, Stored(sofar, keys[0], f[keys[0]], code));
    }
  }

  /** And all of them do, each with the value it was read back with. */
  lemma {:induction false} AddingAll(keys: seq<string>, f: Fields, code: string, sofar: Fields)
    requires forall k | k in keys :: k in f && GoodKey(k)
    ensures var m := Adding(keys, f, code, sofar);
      && m.Keys == sofar.Keys + (set k | k in keys)
      && forall k | k in m :: m[k] == if k in keys then ReadBack(k, f[k], code) else sofar[k]
  {
    hide Repaired, GoodKey, ReadBack;
    if keys != [] {
      assert keys[0] in keys;
      GoodKeyKept(keys[0]);
      assert Repaired(keys[0]) != "" by { KeyIsSome(keys[0]); }
      AddingAll(keys[1..], f, code, Stored(sofar, keys[0], f[keys[0]], code));
      assert keys == [keys[0]] + keys[1..];
    }
  }

  lemma KeyIsSome(k: string)
    requires GoodKey(k)
    ensures k != ""
  {
  }

  lemma {:induction false} MembersRead(keys: seq<string>, f: Fields, code: string, sofar: Fields)
    requires forall k | k in keys :: k in f
    ensures FieldsFrom(MembersThen(keys, f, code, ""), sofar) == Adding(keys, f, code, sofar)
  {
    hide FieldsFrom, JsonStr, ValueText, Stored;
    if keys == [] {
      BraceEnds(sofar);
      assert "}" + "" == "}";
    } else {
      var k, rest := keys[0], keys[1..];
      var next := NextThen(rest, f, code, "");
      var more := Stored(sofar, k, f[k], code);
      assert k in keys;
      FieldReads(k, f[k], code, next, sofar);
      MembersRead(rest, f, code, more);
      if rest == [] {
        BraceEnds(more);
        assert "}" + "" == "}";
      } else {
        CommaSkipped(MembersThen(rest, f, code, ""), more);
      }
    }
  }

  lemma BraceEnds(sofar: Fields)
    ensures FieldsFrom("}", sofar) == sofar
  {
  }

  lemma {:induction false} AsciiValid(s: string)
    requires forall c | c in s :: IsAscii(c)
    ensures ValidUtf8(s)
  {
    if s != "" {
      assert s[0] in s;
      AsciiValid(s[1..]);
    }
  }

  /** A value comes back as it was exactly when it is valid text, and true or
      false for the flag. */
  lemma ValueKept(key: string, val: string, code: string)
    ensures ReadBack(key, val, code) == val <==> ValidUtf8(val) && (key == PII ==> val == "true" || val == "false")
  {
    hide Repaired, ValidUtf8;
    if key == PII {
      AsciiValid("true");
      AsciiValid("false");
    } else if IsSeqNumber(key, val, code) {
      AsciiValid(val);
    } else {
      if ValidUtf8(val) { ValidUnchanged(val); }
      RepairedValid(val);
    }
  }

  /** parse_flat_json_fields gives back what fields_to_json wrote, in whatever
      order the keys are written, exactly when every field is one that survives. */
  lemma FieldsRoundTrip(f: Fields, code: string, keys: seq<string>)
    requires Enumerates(keys, f)
    ensures ParseFields("{" + MembersThen(keys, f, code, "")) == f <==> forall k | k in f :: Keepable(k, f[k])
  {
    hide FieldsFrom, MembersThen, GoodKey, ReadBack, ValidUtf8, Adding;
    var members := MembersThen(keys, f, code, "");
    var text := "{" + members;
    MembersRead(keys, f, code, map[]);
    NotEmpty(keys, f, code);
    assert text[1..] == members && text[0] == '{';
    assert ParseFields(text) == Adding(keys, f, code, map[]);
    AddingExact(f, code, keys);
  }

  lemma AddingExact(f: Fields, code: string, keys: seq<string>)
    requires Enumerates(keys, f)
    ensures Adding(keys, f, code, map[]) == f <==> forall k | k in f :: Keepable(k, f[k])
  {
    hide ReadBack, ValidUtf8, Adding;
    var m := Adding(keys, f, code, map[]);
    AddedKeys(keys, f, code, map[]);
    forall k | k in f ensures ReadBack(k, f[k], code) == f[k] && GoodKey(k) <==> Keepable(k, f[k]) { ValueKept(k, f[k], code); }
    if forall k | k in f :: GoodKey(k) {
      AddingAll(keys, f, code, map[]);
      assert m.Keys == f.Keys;
    }
  }

  lemma NotEmpty(keys: seq<string>, f: Fields, code: string)
    requires forall k | k in keys :: k in f
    ensures MembersThen(keys, f, code, "") != ""
  {
    hide ValueText, Enc;
  }
}
